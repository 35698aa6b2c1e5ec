/** packages/core/src/offline/idRange.ts: the layout of offline ids, PC × 10¹² + table × 10⁹ + n. */
module OfflineIds {
  import opened Text

  const OFFLINE_ID_FLOOR := 1_000_000_000_000
  const TABLE_STRIDE := 1_000_000_000
  const PC_MAX := 9006
  const TABLE_INDEX_MAX := 999
  const N_MAX := 999_999_999
  const MAX_SAFE_INTEGER := 9_007_199_254_740_991

  datatype Parts = Parts(pc: int, tableIndex: int, n: int)

  predicate InLayout(p: Parts) {
    1 <= p.pc <= PC_MAX && 0 <= p.tableIndex <= TABLE_INDEX_MAX && 1 <= p.n <= N_MAX
  }

  /** `encodeOfflineId`; no result where the source throws a range error. */
  function Encode(p: Parts): Option<int> {
    if InLayout(p) then Some(p.pc * OFFLINE_ID_FLOOR + p.tableIndex * TABLE_STRIDE + p.n) else None
  }

  predicate IsOfflineId(v: int) {
    OFFLINE_ID_FLOOR <= v <= MAX_SAFE_INTEGER
  }

  function Decode(v: int): Option<Parts> {
    if !IsOfflineId(v) then None
    else
      var pc := v / OFFLINE_ID_FLOOR;
      var rest := v - pc * OFFLINE_ID_FLOOR;
      var tableIndex := rest / TABLE_STRIDE;
      Some(Parts(pc, tableIndex, rest - tableIndex * TABLE_STRIDE))
  }

  /** The layout itself: a trillion for each PC, a thousand million for each table. */
  lemma EncodeLayout(pc: int, tableIndex: int, n: int)
    requires 1 <= pc <= 9006 && 0 <= tableIndex <= 999 && 1 <= n <= 999_999_999
    ensures Encode(Parts(pc, tableIndex, n)) == Some(pc * 1_000_000_000_000 + tableIndex * 1_000_000_000 + n)
  {
  }

  /** Decoding undoes encoding, and every encoded id is one. */
  lemma DecodeEncode(p: Parts)
    requires InLayout(p)
    ensures IsOfflineId(Encode(p).value) && Decode(Encode(p).value) == Some(p)
  {
    var rest := p.tableIndex * TABLE_STRIDE + p.n;
    assert 0 <= rest < OFFLINE_ID_FLOOR;
  }

  /** Encoding undoes decoding exactly for the ids the layout can issue. */
  lemma EncodeDecodeIff(v: int)
    requires IsOfflineId(v)
    ensures Encode(Decode(v).value) == Some(v) <==> v / OFFLINE_ID_FLOOR <= PC_MAX && v % TABLE_STRIDE != 0
  {
    var p := Decode(v).value;
    var rest := v - p.pc * OFFLINE_ID_FLOOR;
    assert 0 <= rest < OFFLINE_ID_FLOOR;
    assert 0 <= p.n < TABLE_STRIDE && v == p.pc * OFFLINE_ID_FLOOR + p.tableIndex * TABLE_STRIDE + p.n;
    assert v == (p.pc * 1000 + p.tableIndex) * TABLE_STRIDE + p.n;
  }

  /** The open interval of ids the manifest reads for a device and a table. */
  predicate InRange(device: int, tableIndex: int, id: int) {
    var lo := device * OFFLINE_ID_FLOOR + tableIndex * TABLE_STRIDE;
    lo < id < lo + TABLE_STRIDE
  }

  predicate ValidRange(device: int, tableIndex: int) {
    1 <= device <= PC_MAX && 0 <= tableIndex <= TABLE_INDEX_MAX
  }

  /** The interval holds exactly the ids that decode to that device and that table. */
  lemma RangeIsDecode(device: int, tableIndex: int, id: int)
    requires ValidRange(device, tableIndex)
    ensures InRange(device, tableIndex, id) <==>
            Decode(id).Some? && Decode(id).value.pc == device && Decode(id).value.tableIndex == tableIndex &&
            Decode(id).value.n != 0
  {
    if InRange(device, tableIndex, id) {
      DecodeEncode(Parts(device, tableIndex, id - device * OFFLINE_ID_FLOOR - tableIndex * TABLE_STRIDE));
    }
  }

  /** Ranges of different devices or different tables share no id. */
  lemma RangesDisjoint(d1: int, t1: int, d2: int, t2: int, id: int)
    requires ValidRange(d1, t1) && ValidRange(d2, t2)
    requires InRange(d1, t1, id) && InRange(d2, t2, id)
    ensures d1 == d2 && t1 == t2
  {
    RangeIsDecode(d1, t1, id);
    RangeIsDecode(d2, t2, id);
  }
}
