/** What `_emit_row` makes of each row, and when a generated code is new. */
module ItemCodes {
  import opened Text
  import opened ToonPrinter
  import opened ItemTable

  // ----- row by row -----

  /** The normalized text of a column; a missing cell is empty. */
  function Cell(cells: seq<string>, j: nat): string {
    if j < |cells| then Normalize(cells[j]) else ""
  }

  /** The row that stands for no item. */
  predicate Placeholder(cells: seq<string>) {
    Cell(cells, 1) == "_undefined"
  }

  /** The rows that become items. */
  function Kept(rows: seq<seq<string>>): seq<seq<string>> {
    if rows == [] then [] else (if Placeholder(rows[0]) then [] else [rows[0]]) + Kept(rows[1..])
  }

  function OwnCode(cells: seq<string>): string {
    WithoutSpaces(Cell(cells, 2))
  }

  /** The item is made of this row: each column from its own cell, and the code from the row or else from a draw. */
  ghost predicate MadeOf(num: Numbers, draws: seq<string>, cells: seq<string>, item: Item) {
    Printed(item.category) == Cell(cells, 0) && Printed(item.name) == Cell(cells, 1) &&
    Printed(item.supplier) == Cell(cells, 10) && item.price == num.price(Cell(cells, 6)) &&
    item.cost == num.price(Cell(cells, 7)) && item.unit == Some(num.unit(Cell(cells, 4))) &&
    if OwnCode(cells) != "" then item.code == Some(StoredCode(OwnCode(cells)))
    else exists k :: 0 <= k < |draws| && item.code == Some(StoredCode(draws[k]))
  }

  lemma ColumnIsCell(cells: seq<string>, j: nat)
    requires j < COLUMN_COUNT
    ensures Columns(cells)[j] == Cell(cells, j)
  {
  }

  lemma ItemMadeOf(num: Numbers, draws: seq<string>, cells: seq<string>, code: string, k: nat)
    requires OwnCode(cells) == code != "" || (OwnCode(cells) == "" && k < |draws| && draws[k] == code)
    ensures MadeOf(num, draws, cells, ItemFrom(num, Columns(cells), code))
  {
    ColumnIsCell(cells, 0);
    ColumnIsCell(cells, 1);
    ColumnIsCell(cells, 4);
    ColumnIsCell(cells, 6);
    ColumnIsCell(cells, 7);
    ColumnIsCell(cells, 10);
  }

  /** `r` is `out` after one row: unchanged by the placeholder, and otherwise with one item more, made of the row. */
  ghost predicate Emitted(num: Numbers, out: Output, cells: seq<string>, r: Output) {
    !out.spinning && IsSuffix(r.draws, out.draws) &&
    if Placeholder(cells) then r.items == out.items
    else |r.items| > 0 && r.items[..|r.items| - 1] == out.items && MadeOf(num, out.draws, cells, r.items[|r.items| - 1])
  }

  lemma OneMore(num: Numbers, out: Output, cells: seq<string>, r: Output, item: Item)
    requires !out.spinning && !Placeholder(cells) && IsSuffix(r.draws, out.draws)
    requires r.items == out.items + [item] && MadeOf(num, out.draws, cells, item)
    ensures Emitted(num, out, cells, r)
  {
  }

  lemma EmitSkips(num: Numbers, out: Output, cells: seq<string>)
    ensures out.spinning || Placeholder(cells) ==> Emit(num, out, cells) == out
    ensures !out.spinning && !Placeholder(cells) && OwnCode(cells) == "" && NextCode(out.draws, out.seen).None? ==>
              Emit(num, out, cells).spinning
  {
    ColumnIsCell(cells, 1);
    ColumnIsCell(cells, 2);
  }

  lemma EmitOne(num: Numbers, out: Output, cells: seq<string>)
    requires !Emit(num, out, cells).spinning
    ensures Emitted(num, out, cells, Emit(num, out, cells))
  {
    EmitSkips(num, out, cells);
    if !Placeholder(cells) {
      if OwnCode(cells) != "" {
        EmitOwn(num, out, cells);
        ItemMadeOf(num, out.draws, cells, OwnCode(cells), 0);
        OneMore(num, out, cells, Emit(num, out, cells), ItemFrom(num, Columns(cells), OwnCode(cells)));
      } else {
        var next := NextCode(out.draws, out.seen).value;
        EmitDrawn(num, out, cells);
        ItemMadeOf(num, out.draws, cells, next.0, |out.draws| - |next.1| - 1);
        OneMore(num, out, cells, Emit(num, out, cells), ItemFrom(num, Columns(cells), next.0));
      }
    }
  }

  /** A row with a code of its own. */
  lemma EmitOwn(num: Numbers, out: Output, cells: seq<string>)
    requires !out.spinning && !Placeholder(cells) && OwnCode(cells) != ""
    ensures Emit(num, out, cells) == WithItem(num, out, Columns(cells), OwnCode(cells))
  {
    ColumnIsCell(cells, 1);
    ColumnIsCell(cells, 2);
  }

  /** A row without one. */
  lemma EmitDrawn(num: Numbers, out: Output, cells: seq<string>)
    requires !out.spinning && !Placeholder(cells) && OwnCode(cells) == "" && NextCode(out.draws, out.seen).Some?
    ensures var next := NextCode(out.draws, out.seen).value;
            Emit(num, out, cells) == WithItem(num, out.(draws := next.1), Columns(cells), next.0)
  {
    ColumnIsCell(cells, 1);
    ColumnIsCell(cells, 2);
  }

  predicate IsSuffix(a: seq<string>, b: seq<string>) {
    |a| <= |b| && a == b[|b| - |a|..]
  }

  lemma MadeOfMore(num: Numbers, a: seq<string>, b: seq<string>, cells: seq<string>, item: Item)
    requires IsSuffix(a, b) && MadeOf(num, a, cells, item)
    ensures MadeOf(num, b, cells, item)
  {
    if OwnCode(cells) == "" {
      var k :| 0 <= k < |a| && item.code == Some(StoredCode(a[k]));
      assert b[|b| - |a| + k] == a[k];
    }
  }

  lemma {:induction false} SpinsOn(num: Numbers, out: Output, rows: seq<seq<string>>)
    requires out.spinning
    ensures EmitAll(num, out, rows).spinning
    decreases |rows|
  {
    if rows != [] {
      SpinsOn(num, Emit(num, out, rows[0]), rows[1..]);
    }
  }

  /** From position `n` on, the items are made of these rows, one each and in order. */
  ghost predicate AllMade(num: Numbers, draws: seq<string>, rows: seq<seq<string>>, items: seq<Item>, n: nat) {
    |items| == n + |rows| && forall k :: 0 <= k < |rows| ==> MadeOf(num, draws, rows[k], items[n + k])
  }

  lemma MadeOfDraws(num: Numbers, a: seq<string>, b: seq<string>, rows: seq<seq<string>>, items: seq<Item>, n: nat)
    requires IsSuffix(a, b) && AllMade(num, a, rows, items, n)
    ensures AllMade(num, b, rows, items, n)
  {
    forall k | 0 <= k < |rows| ensures MadeOf(num, b, rows[k], items[n + k]) {
      MadeOfMore(num, a, b, rows[k], items[n + k]);
    }
  }

  lemma MadeCons(num: Numbers, draws: seq<string>, cells: seq<string>, rows: seq<seq<string>>, items: seq<Item>, n: nat)
    requires n < |items| && MadeOf(num, draws, cells, items[n]) && AllMade(num, draws, rows, items, n + 1)
    ensures AllMade(num, draws, [cells] + rows, items, n)
  {
    var all := [cells] + rows;
    forall k | 0 <= k < |all| ensures MadeOf(num, draws, all[k], items[n + k]) {
      if k > 0 {
        assert all[k] == rows[k - 1] && items[n + k] == items[n + 1 + (k - 1)];
      }
    }
  }

  /** One row more in front. */
  lemma ExactStep(num: Numbers, out: Output, cells: seq<string>, mid: Output, tail: seq<seq<string>>, items: seq<Item>)
    requires Emitted(num, out, cells, mid) && mid.items <= items && AllMade(num, mid.draws, tail, items, |mid.items|)
    ensures out.items <= items
    ensures AllMade(num, out.draws, (if Placeholder(cells) then [] else [cells]) + tail, items, |out.items|)
  {
    MadeOfDraws(num, mid.draws, out.draws, tail, items, |mid.items|);
    if Placeholder(cells) {
      Nothing(tail);
    } else {
      assert items[|out.items|] == mid.items[|out.items|];
      MadeCons(num, out.draws, cells, tail, items, |out.items|);
    }
  }

  /**
   * While the draws last, the items are exactly the rows that are no placeholder, one each and in order, and each is
   * made of its own row.
   */
  lemma {:induction false} EmitAllExact(num: Numbers, out: Output, rows: seq<seq<string>>)
    requires !EmitAll(num, out, rows).spinning
    ensures var items := EmitAll(num, out, rows).items;
            out.items <= items && AllMade(num, out.draws, Kept(rows), items, |out.items|)
    decreases |rows|
  {
    if rows != [] {
      var mid := Emit(num, out, rows[0]);
      if mid.spinning {
        SpinsOn(num, mid, rows[1..]);
      }
      EmitOne(num, out, rows[0]);
      EmitAllExact(num, mid, rows[1..]);
      ExactStep(num, out, rows[0], mid, Kept(rows[1..]), EmitAll(num, out, rows).items);
    }
  }

  // ----- how a code is stored -----

  lemma {:induction false} ZerosFall(s: string)
    requires Digits(s)
    ensures var r := WithoutLeadingZeros(s);
            Digits(r) && Number(r) == Number(s) && (r[0] == '0' ==> r == "0")
  {
    if |s| > 1 && s[0] == '0' {
      ZerosFall(s[1..]);
      NumberTail(s);
    } else if s[0] == '0' {
      assert s == "0";
    }
  }

  lemma {:induction false} NumberTail(s: string)
    requires |s| > 1 && s[0] == '0'
    ensures Number(s[1..]) == Number(s)
  {
    var n := |s| - 1;
    assert s[1..][..n - 1] == s[..n][1..] && s[1..][n - 1] == s[n];
    if n > 1 {
      NumberTail(s[..n]);
    } else {
      assert s[..n] == "0" && s[..n][..0] == "" && s[1..][..0] == "";
      assert Number("0") == 0;
    }
  }

  /** A code of digits is stored as the number it writes, without leading zeros; any other as it is. */
  lemma StoredCodeExact(s: string)
    ensures Digits(s) ==>
              Digits(StoredCode(s)) && Number(StoredCode(s)) == Number(s) &&
              (StoredCode(s)[0] == '0' ==> StoredCode(s) == "0")
    ensures !Digits(s) ==> StoredCode(s) == s
  {
    if Digits(s) {
      ZerosFall(s);
    }
  }

  /** The blanks of a code go and nothing else does. */
  lemma {:induction false} WithoutSpacesExact(a: string, b: string)
    ensures WithoutSpaces(a + b) == WithoutSpaces(a) + WithoutSpaces(b)
    ensures WithoutSpaces(" ") == "" && (' ' !in a ==> WithoutSpaces(a) == a)
  {
    assert " "[1..] == "";
    if a == "" {
      Nothing(b);
      Nothing(WithoutSpaces(b));
    } else {
      TailAppend(a, b);
      WithoutSpacesExact(a[1..], b);
      Assoc(if a[0] == ' ' then "" else [a[0]], WithoutSpaces(a[1..]), WithoutSpaces(b));
    }
  }

  // ----- generated codes -----

  /** The codes of the items are those of the texts seen, as they are stored. */
  ghost predicate Accounted(items: seq<Item>, seen: set<string>) {
    (forall i :: 0 <= i < |items| ==> exists t :: t in seen && items[i].code == Some(StoredCode(t))) &&
    (forall t :: t in seen ==> HasCode(items, StoredCode(t)))
  }

  ghost predicate HasCode(items: seq<Item>, code: string) {
    exists i :: 0 <= i < |items| && items[i].code == Some(code)
  }

  lemma AccountedMore(items: seq<Item>, seen: set<string>, item: Item, code: string)
    requires Accounted(items, seen) && item.code == Some(StoredCode(code))
    ensures Accounted(items + [item], seen + {code})
  {
    var more := items + [item];
    assert more[|items|] == item;
    forall t | t in seen + {code} ensures HasCode(more, StoredCode(t)) {
      if t in seen {
        var i :| 0 <= i < |items| && items[i].code == Some(StoredCode(t));
        assert more[i] == items[i];
      }
    }
  }

  lemma EmitAccounted(num: Numbers, out: Output, cells: seq<string>)
    requires Accounted(out.items, out.seen)
    ensures Accounted(Emit(num, out, cells).items, Emit(num, out, cells).seen)
  {
    var row := Columns(cells);
    var code, next := WithoutSpaces(row[2]), NextCode(out.draws, out.seen);
    if code != "" {
      AccountedMore(out.items, out.seen, ItemFrom(num, row, code), code);
    } else if next.Some? {
      AccountedMore(out.items, out.seen, ItemFrom(num, row, next.value.0), next.value.0);
    }
  }

  lemma StepEmits(num: Numbers, st: Scan, e: Event)
    ensures var next := Step(num, st, e); next.out == st.out || next.out == Emit(num, st.out, st.cells)
  {
    if e.End? {
      EndEmits(num, st, e.tag);
    }
  }

  lemma EndEmits(num: Numbers, st: Scan, tag: Tag)
    ensures OnEnd(num, st, tag).out == st.out || OnEnd(num, st, tag).out == Emit(num, st.out, st.cells)
  {
    if tag == Tr && st.inRow && st.cells != [] {
      EndWithRow(num, st);
    } else {
      EndWithoutRow(num, st, tag);
    }
  }

  /** Over every event stream, well formed or not, the codes seen account for the codes of the items. */
  lemma {:induction false} RunAccounted(num: Numbers, st: Scan, es: seq<Event>)
    requires Accounted(st.out.items, st.out.seen)
    ensures Accounted(Run(num, st, es).out.items, Run(num, st, es).out.seen)
    decreases |es|
  {
    if es != [] {
      EmitAccounted(num, st.out, st.cells);
      StepEmits(num, st, es[0]);
      RunAccounted(num, Step(num, st, es[0]), es[1..]);
    }
  }

  /** A code the generator can draw: twelve digits, the first of them no zero. */
  predicate Drawable(code: string) {
    |code| == 12 && Digits(code) && code[0] != '0'
  }

  predicate Zeros(z: string) {
    forall i :: 0 <= i < |z| ==> z[i] == '0'
  }

  /** The text is the code behind at least one zero. */
  predicate ZeroPadded(t: string, code: string) {
    |t| > |code| && t[|t| - |code|..] == code && Zeros(t[..|t| - |code|])
  }

  lemma ZerosTail(t: string, k: nat)
    requires 0 < k <= |t| && t[0] == '0'
    ensures Zeros(t[..k]) <==> Zeros(t[1..][..k - 1])
  {
    var a, b := t[..k], t[1..][..k - 1];
    assert forall i :: 0 < i < k ==> a[i] == b[i - 1];
    if Zeros(a) {
      forall i | 0 <= i < k - 1 ensures b[i] == '0' {
        assert a[i + 1] == b[i];
      }
    }
  }

  lemma PaddedTail(t: string, code: string)
    requires |t| > 1 && t[0] == '0' && Drawable(code)
    ensures t == code || ZeroPadded(t, code) <==> t[1..] == code || ZeroPadded(t[1..], code)
  {
    var u, k := t[1..], |t| - |code|;
    if k > 0 {
      ZerosTail(t, k);
      assert u[k - 1..] == t[k..];
      if k == 1 {
        assert u[0..] == u && u[..0] == "";
      }
    }
  }

  lemma {:induction false} StripsTo(t: string, code: string)
    requires Drawable(code)
    ensures WithoutLeadingZeros(t) == code <==> t == code || ZeroPadded(t, code)
  {
    if |t| > 1 && t[0] == '0' {
      StripsTo(t[1..], code);
      PaddedTail(t, code);
    }
  }

  lemma PaddedIsDigits(t: string, code: string)
    requires Drawable(code) && ZeroPadded(t, code)
    ensures Digits(t)
  {
    var n := |t| - |code|;
    forall i | 0 <= i < |t| ensures Digit(t[i]) {
      if i < n {
        assert t[i] == t[..n][i];
      } else {
        assert t[i] == t[n..][i - n];
      }
    }
  }

  lemma StoredAlike(t: string, code: string)
    requires Drawable(code)
    ensures StoredCode(code) == code
    ensures StoredCode(t) == code <==> t == code || ZeroPadded(t, code)
  {
    StripsTo(t, code);
    StripsTo(code, code);
    if ZeroPadded(t, code) {
      PaddedIsDigits(t, code);
    }
  }

  lemma RepeatsIff(items: seq<Item>, seen: set<string>, code: string)
    requires Accounted(items, seen) && code !in seen && Drawable(code)
    ensures HasCode(items, StoredCode(code)) <==> exists t :: t in seen && ZeroPadded(t, code)
  {
    StoredAlike(code, code);
    if HasCode(items, code) {
      var i :| 0 <= i < |items| && items[i].code == Some(code);
      var t :| t in seen && items[i].code == Some(StoredCode(t));
      StoredAlike(t, code);
      assert t in seen && ZeroPadded(t, code);
    }
    if t :| t in seen && ZeroPadded(t, code) {
      StoredAlike(t, code);
    }
  }

  predicate AllDrawable(draws: seq<string>) {
    forall i :: 0 <= i < |draws| ==> Drawable(draws[i])
  }

  lemma EmitDraws(num: Numbers, out: Output, cells: seq<string>)
    requires AllDrawable(out.draws)
    ensures AllDrawable(Emit(num, out, cells).draws)
  {
  }

  lemma {:induction false} RunDraws(num: Numbers, st: Scan, es: seq<Event>)
    requires AllDrawable(st.out.draws)
    ensures AllDrawable(Run(num, st, es).out.draws)
    decreases |es|
  {
    if es != [] {
      EmitDraws(num, st.out, st.cells);
      StepEmits(num, st, es[0]);
      RunDraws(num, Step(num, st, es[0]), es[1..]);
    }
  }

  /**
   * After any event stream, the next generated code is a draw not seen before; but it repeats the stored code of an
   * earlier item exactly when some code seen is the same number behind zeros, because codes are compared as texts and
   * stored as numbers.
   */
  lemma GeneratedCodeRepeatsIff(num: Numbers, draws: seq<string>, es: seq<Event>)
    requires AllDrawable(draws)
    ensures var out := Run(num, Initial(draws), es).out;
            var next := NextCode(out.draws, out.seen);
            next.Some? ==>
              var code := next.value.0;
              code !in out.seen &&
              (HasCode(out.items, StoredCode(code)) <==> exists t :: t in out.seen && ZeroPadded(t, code))
  {
    var out := Run(num, Initial(draws), es).out;
    RunDraws(num, Initial(draws), es);
    RunAccounted(num, Initial(draws), es);
    var next := NextCode(out.draws, out.seen);
    if next.Some? {
      var k := |out.draws| - |next.value.1| - 1;
      assert next.value.0 == out.draws[k];
      RepeatsIff(out.items, out.seen, next.value.0);
    }
  }

  /** A first row whose code is a drawable code behind a zero, and a second without a code that draws it. */
  lemma RepeatedBy(num: Numbers, first: seq<string>, second: seq<string>, code: string)
    requires Drawable(code) && OwnCode(first) == ['0'] + code && OwnCode(second) == ""
    requires !Placeholder(first) && !Placeholder(second)
    ensures var items := EmitAll(num, Initial([code]).out, [first, second]).items;
            |items| == 2 && items[0].code == items[1].code == Some(code)
  {
    var out, t := Initial([code]).out, ['0'] + code;
    assert t[1..] == code && t[..1] == ['0'];
    StoredAlike(t, code);
    StoredAlike(code, code);
    EmitOwn(num, out, first);
    EmitDrawn(num, Emit(num, out, first), second);
    EmitTwo(num, out, first, second);
  }

  predicate NoBlank(s: string) {
    forall i :: 0 <= i < |s| ==> !PySpace(s[i])
  }

  lemma {:induction false} PlainCell(s: string)
    requires NoBlank(s)
    ensures Collapse(s) == s && WithoutSpaces(s) == s
  {
    if s != "" {
      PlainCell(s[1..]);
    }
  }

  lemma PlainNormalized(s: string)
    requires NoBlank(s)
    ensures Normalize(s) == s && WithoutSpaces(Normalize(s)) == s
  {
    PlainCell(s);
    StripTrims(s, PySpace);
  }

  lemma RepeatedFor(num: Numbers, category: string, a: string, b: string, code: string)
    requires NoBlank(a) && NoBlank(b) && |a| == |b| == 1 && Drawable(code)
    ensures var items := EmitAll(num, Initial([code]).out, [[category, a, ['0'] + code], [category, b]]).items;
            |items| == 2 && items[0].code == items[1].code == Some(code)
  {
    PlainNormalized(['0'] + code);
    PlainNormalized(a);
    PlainNormalized(b);
    RepeatedBy(num, [category, a, ['0'] + code], [category, b], code);
  }

  lemma DrawableExample()
    ensures Drawable("123456789012") && ['0'] + "123456789012" == "0123456789012"
  {
  }

  /**
   * Such a repetition happens: the rows `-, A, 0123456789012` and `-, B`, with the draw 123456789012, get the same
   * code.
   */
  lemma RepeatedCode(num: Numbers)
    ensures var rows := [["-", "A", "0123456789012"], ["-", "B"]];
            var items := EmitAll(num, Initial(["123456789012"]).out, rows).items;
            |items| == 2 && items[0].code == items[1].code == Some("123456789012")
  {
    DrawableExample();
    RepeatedFor(num, "-", "A", "B", "123456789012");
  }

  lemma EmitTwo(num: Numbers, out: Output, first: seq<string>, second: seq<string>)
    ensures EmitAll(num, out, [first, second]) == Emit(num, Emit(num, out, first), second)
  {
    assert [first, second][1..] == [second] && [second][1..] == [];
    assert EmitAll(num, Emit(num, out, first), [second]) == Emit(num, Emit(num, out, first), second);
  }
}
