/** The structured-pipe operators `where` and `sort-by`, and how they fit together. */
module StructuredPipe {
  import opened Text
  import opened StableSort

  /** A `double` up to rounding. */
  datatype Number = NaN | NegInf | Fin(r: real) | PosInf

  datatype JsonValue =
    | Null
    | Bool(b: bool)
    | Num(n: Number)
    | Str(s: string)
    | Arr(items: seq<JsonValue>)
    | Obj(fields: map<string, JsonValue>)

  /** How a `where` operand is typed, and how a value that is no string is shown. */
  datatype Conversions = Conversions(autoType: string -> JsonValue, show: JsonValue -> string)

  predicate NumLess(a: Number, b: Number) {
    match (a, b)
    case (NegInf, NegInf) => false
    case (NegInf, Fin(_)) => true
    case (NegInf, PosInf) => true
    case (Fin(_), PosInf) => true
    case (Fin(x), Fin(y)) => x < y
    case _ => false
  }

  function ValueToString(conv: Conversions, v: JsonValue): string {
    if v.Str? then v.s else conv.show(v)
  }

  function CompareJson(conv: Conversions, a: JsonValue, b: JsonValue): int {
    if a.Num? && b.Num? then (if NumLess(a.n, b.n) then -1 else if NumLess(b.n, a.n) then 1 else 0)
    else if a.Str? && b.Str? then CompareStrings(a.s, b.s)
    else CompareStrings(ValueToString(conv, a), ValueToString(conv, b))
  }

  predicate Has(item: JsonValue, field: string) {
    item.Obj? && field in item.fields
  }

  /** The comparator of `sort-by`. */
  predicate ComesBefore(conv: Conversions, field: string, descending: bool, a: JsonValue, b: JsonValue) {
    if !Has(a, field) then false
    else if !Has(b, field) then true
    else
      var cmp := CompareJson(conv, a.fields[field], b.fields[field]);
      if descending then cmp > 0 else cmp < 0
  }

  function Before(conv: Conversions, field: string, descending: bool): (JsonValue, JsonValue) -> bool {
    (a, b) => ComesBefore(conv, field, descending, a, b)
  }

  predicate Satisfies(op: string, cmp: int) {
    if op == "==" || op == "=" then cmp == 0
    else if op == "!=" then cmp != 0
    else if op == ">" then cmp > 0
    else if op == "<" then cmp < 0
    else if op == ">=" then cmp >= 0
    else if op == "<=" then cmp <= 0
    else false
  }

  predicate Keeps(conv: Conversions, field: string, op: string, operand: JsonValue, item: JsonValue) {
    Has(item, field) && Satisfies(op, CompareJson(conv, item.fields[field], operand))
  }

  function Kept(conv: Conversions, field: string, op: string, operand: JsonValue): JsonValue -> bool {
    item => Keeps(conv, field, op, operand, item)
  }

  /** The operand of `where`: the arguments from the third on, joined by spaces. */
  function RawValue(args: seq<string>): string
    requires |args| >= 3
  {
    if |args| == 3 then args[2] else RawValue(args[..|args| - 1]) + " " + args[|args| - 1]
  }

  predicate Descending(args: seq<string>) {
    exists i :: 1 <= i < |args| && (args[i] == "--desc" || args[i] == "-d")
  }

  function Where(conv: Conversions, args: seq<string>, input: JsonValue): JsonValue {
    if |args| < 3 || !input.Arr? then input
    else Arr(Filter(Kept(conv, args[0], args[1], conv.autoType(RawValue(args))), input.items))
  }

  function SortBy(conv: Conversions, args: seq<string>, input: JsonValue): JsonValue {
    if args == [] || !input.Arr? then input
    else Arr(Sort(Before(conv, args[0], Descending(args)), input.items))
  }

  // The operators as loops.

  method OpWhere(conv: Conversions, args: seq<string>, input: JsonValue) returns (result: JsonValue)
    ensures result == Where(conv, args, input)
  {
    if |args| < 3 { return input; }
    if !input.Arr? { return input; }
    var field, op, rawValue := args[0], args[1], args[2];
    var i := 3;
    assert args[..3][2] == args[2];
    while i < |args|
      invariant 3 <= i <= |args| && rawValue == RawValue(args[..i])
    {
      rawValue := rawValue + " " + args[i];
      assert args[..i + 1][..i] == args[..i];
      i := i + 1;
    }
    assert args[..i] == args;
    var operand := conv.autoType(rawValue);
    ghost var keep := Kept(conv, field, op, operand);
    hide CompareJson;
    var items: seq<JsonValue> := [];
    var k := 0;
    while k < |input.items|
      invariant 0 <= k <= |input.items| && items == Filter(keep, input.items[..k])
    {
      var item := input.items[k];
      FilterSnoc(keep, input.items[..k], item);
      assert input.items[..k + 1] == input.items[..k] + [item];
      assert keep(item) == Keeps(conv, field, op, operand, item);
      k := k + 1;
      if !item.Obj? { continue; }
      if field !in item.fields { continue; }
      var cmp := CompareJson(conv, item.fields[field], operand);
      var match_ := false;
      if op == "==" || op == "=" {
        match_ := cmp == 0;
      } else if op == "!=" {
        match_ := cmp != 0;
      } else if op == ">" {
        match_ := cmp > 0;
      } else if op == "<" {
        match_ := cmp < 0;
      } else if op == ">=" {
        match_ := cmp >= 0;
      } else if op == "<=" {
        match_ := cmp <= 0;
      }
      if match_ {
        items := items + [item];
      }
    }
    assert input.items[..k] == input.items;
    return Arr(items);
  }

  /**
   The library's stable sort. Where `less` does not order the items the library promises nothing;
   the equation then fixes one of the results it may give, and no law below is about it.
   */
  method StableSortItems(less: (JsonValue, JsonValue) -> bool, items: seq<JsonValue>) returns (r: seq<JsonValue>)
    ensures r == Sort(less, items)
  {
    r := [];
    var i := 0;
    while i < |items|
      invariant 0 <= i <= |items| && r == Sort(less, items[..i])
    {
      assert items[..i + 1][..i] == items[..i];
      r := Place(less, r, items[i]);
      i := i + 1;
    }
    assert items[..i] == items;
  }

  method OpSortBy(conv: Conversions, args: seq<string>, input: JsonValue) returns (result: JsonValue)
    ensures result == SortBy(conv, args, input)
  {
    if args == [] { return input; }
    if !input.Arr? { return input; }
    var field := args[0];
    var descending := false;
    var i := 1;
    while i < |args|
      invariant 1 <= i <= |args|
      invariant descending <==> exists k :: 1 <= k < i && (args[k] == "--desc" || args[k] == "-d")
    {
      if args[i] == "--desc" || args[i] == "-d" {
        descending := true;
      }
      i := i + 1;
    }
    var sorted := StableSortItems(Before(conv, field, descending), input.items);
    return Arr(sorted);
  }

  // The comparator orders a column of numbers, or one without numbers.

  /** `Texts`: strings, and everything else that is compared by how it is shown. */
  datatype Column = Numbers | Texts

  /** No parsed document holds a NaN. */
  predicate KeyFits(column: Column, v: JsonValue) {
    if column.Numbers? then v.Num? && !v.n.NaN? else !v.Num?
  }

  predicate Fits(column: Column, field: string, item: JsonValue) {
    Has(item, field) ==> KeyFits(column, item.fields[field])
  }

  predicate Homogeneous(column: Column, field: string, items: seq<JsonValue>) {
    forall item :: item in items ==> Fits(column, field, item)
  }

  lemma TextsCompare(conv: Conversions, a: JsonValue, b: JsonValue)
    requires KeyFits(Texts, a) && KeyFits(Texts, b)
    ensures CompareJson(conv, a, b) == CompareStrings(ValueToString(conv, a), ValueToString(conv, b))
  {
  }

  /** On one column the comparison is antisymmetric up to sign. */
  lemma KeysCompare(conv: Conversions, column: Column, a: JsonValue, b: JsonValue)
    requires KeyFits(column, a) && KeyFits(column, b)
    ensures CompareJson(conv, a, b) < 0 <==> CompareJson(conv, b, a) > 0
  {
    if column.Texts? {
      TextsCompare(conv, a, b);
      TextsCompare(conv, b, a);
      CompareAntisymmetric(ValueToString(conv, a), ValueToString(conv, b));
    }
  }

  lemma KeysTransitive(conv: Conversions, column: Column, a: JsonValue, b: JsonValue, c: JsonValue)
    requires KeyFits(column, a) && KeyFits(column, b) && KeyFits(column, c)
    requires CompareJson(conv, a, b) <= 0 && CompareJson(conv, b, c) <= 0
    ensures CompareJson(conv, a, c) <= 0
  {
    if column.Texts? {
      TextsCompare(conv, a, b);
      TextsCompare(conv, b, c);
      TextsCompare(conv, a, c);
      CompareTransitive(ValueToString(conv, a), ValueToString(conv, b), ValueToString(conv, c));
    }
  }

  lemma BeforeAsymmetric(conv: Conversions, field: string, descending: bool, column: Column, x: JsonValue, y: JsonValue)
    requires Fits(column, field, x) && Fits(column, field, y)
    ensures !(ComesBefore(conv, field, descending, x, y) && ComesBefore(conv, field, descending, y, x))
  {
    if Has(x, field) && Has(y, field) {
      KeysCompare(conv, column, x.fields[field], y.fields[field]);
      KeysCompare(conv, column, y.fields[field], x.fields[field]);
    }
    hide CompareJson;
  }

  lemma BeforeTransitive(conv: Conversions, field: string, descending: bool, column: Column,
                         x: JsonValue, y: JsonValue, z: JsonValue)
    requires Fits(column, field, x) && Fits(column, field, y) && Fits(column, field, z)
    requires !ComesBefore(conv, field, descending, y, x) && !ComesBefore(conv, field, descending, z, y)
    ensures !ComesBefore(conv, field, descending, z, x)
  {
    if Has(x, field) && Has(y, field) && Has(z, field) {
      var a, b, c := x.fields[field], y.fields[field], z.fields[field];
      KeysCompare(conv, column, a, b);
      KeysCompare(conv, column, b, a);
      KeysCompare(conv, column, b, c);
      KeysCompare(conv, column, c, b);
      KeysCompare(conv, column, a, c);
      KeysCompare(conv, column, c, a);
      hide CompareJson;
      if descending {
        KeysTransitive(conv, column, c, b, a);
      } else {
        KeysTransitive(conv, column, a, b, c);
      }
    }
    hide CompareJson;
  }

  lemma ColumnIsOrdered(conv: Conversions, field: string, descending: bool, column: Column, items: seq<JsonValue>)
    requires Homogeneous(column, field, items)
    ensures Orders(Before(conv, field, descending), items)
  {
    var less := Before(conv, field, descending);
    forall x, y | x in items && y in items ensures !(less(x, y) && less(y, x)) {
      BeforeAsymmetric(conv, field, descending, column, x, y);
    }
    forall x, y, z | x in items && y in items && z in items && !less(y, x) && !less(z, y) ensures !less(z, x) {
      BeforeTransitive(conv, field, descending, column, x, y, z);
    }
  }

  /** The keys present are of the kinds allowed. */
  predicate OfKinds(numbers: bool, texts: bool, field: string, items: seq<JsonValue>) {
    forall item :: item in items ==>
      (Fits(Numbers, field, item) && numbers) || (Fits(Texts, field, item) && texts) || !Has(item, field)
  }

  function Row(field: string, v: JsonValue): JsonValue {
    Obj(map[field := v])
  }

  /** Both integers are shown as their decimal digits. */
  predicate ShowsDigits(conv: Conversions) {
    conv.show(Num(Fin(9.0))) == "9" && conv.show(Num(Fin(10.0))) == "10"
  }

  /** The comparator goes round in a circle on 10, "9" and 9: the first two by their text, the others by value. */
  lemma MixedColumnCycles(conv: Conversions, field: string, descending: bool)
    requires ShowsDigits(conv)
    ensures var less := Before(conv, field, descending);
            var ten, text, nine := Row(field, Num(Fin(10.0))), Row(field, Str("9")), Row(field, Num(Fin(9.0)));
            && (if descending then less(text, ten) && less(ten, nine) else less(ten, text) && less(nine, ten))
            && !less(text, nine) && !less(nine, text)
            && !Orders(less, [ten, text, nine])
  {
    var less := Before(conv, field, descending);
    var ten, text, nine := Row(field, Num(Fin(10.0))), Row(field, Str("9")), Row(field, Num(Fin(9.0)));
    var rows := [ten, text, nine];
    DigitsCompare();
    assert ten in rows && text in rows && nine in rows;
    if descending {
      assert !less(text, nine) && !less(ten, text) && less(ten, nine);
    } else {
      assert !less(text, ten) && !less(nine, text) && less(nine, ten);
    }
  }

  lemma DigitsCompare()
    ensures CompareStrings("10", "9") < 0 && CompareStrings("9", "10") > 0 && CompareStrings("9", "9") == 0
  {
    CompareAntisymmetric("9", "9");
  }

  /** The comparator orders every column of the kinds allowed if and only if numbers do not mix with others. */
  lemma OrderedIffUnmixed(conv: Conversions, field: string, descending: bool, numbers: bool, texts: bool)
    requires ShowsDigits(conv)
    ensures (forall items: seq<JsonValue> | OfKinds(numbers, texts, field, items) ::
               Orders(Before(conv, field, descending), items)) <==> !(numbers && texts)
  {
    if numbers && texts {
      var rows := [Row(field, Num(Fin(10.0))), Row(field, Str("9")), Row(field, Num(Fin(9.0)))];
      MixedColumnCycles(conv, field, descending);
      assert OfKinds(numbers, texts, field, rows);
    } else {
      var column := if numbers then Numbers else Texts;
      forall items: seq<JsonValue> | OfKinds(numbers, texts, field, items)
        ensures Orders(Before(conv, field, descending), items)
      {
        assert Homogeneous(column, field, items);
        ColumnIsOrdered(conv, field, descending, column, items);
      }
    }
  }

  // The laws.

  /** Rows lacking the field come after all rows that have it. */
  ghost predicate MissingLast(field: string, items: seq<JsonValue>) {
    forall i, j :: 0 <= i < j < |items| && Has(items[j], field) ==> Has(items[i], field)
  }

  /** The keys ascend, or descend. */
  ghost predicate KeysInOrder(conv: Conversions, field: string, descending: bool, items: seq<JsonValue>) {
    forall i, j :: 0 <= i < j < |items| && Has(items[i], field) && Has(items[j], field) ==>
      var cmp := CompareJson(conv, items[i].fields[field], items[j].fields[field]);
      if descending then cmp >= 0 else cmp <= 0
  }

  /**
   On a homogeneous column, in both directions: a stable permutation in key order with the rows
   lacking the field last, and the only one.
   */
  lemma SortByIsStableSort(conv: Conversions, args: seq<string>, column: Column, items: seq<JsonValue>)
    requires args != [] && Homogeneous(column, args[0], items)
    ensures SortBy(conv, args, Arr(items)).Arr?
    ensures var less := Before(conv, args[0], Descending(args));
            && StablySorted(less, items, SortBy(conv, args, Arr(items)).items)
            && forall r :: StablySorted(less, items, r) ==> r == SortBy(conv, args, Arr(items)).items
    ensures MissingLast(args[0], SortBy(conv, args, Arr(items)).items)
    ensures KeysInOrder(conv, args[0], Descending(args), SortBy(conv, args, Arr(items)).items)
  {
    var field, descending := args[0], Descending(args);
    var less := Before(conv, field, descending);
    ColumnIsOrdered(conv, field, descending, column, items);
    SortIsStable(less, items);
    forall r | StablySorted(less, items, r) ensures r == Sort(less, items) {
      StableSortIsUnique(less, items, r);
    }
    var r := Sort(less, items);
    forall x | x in r ensures Fits(column, field, x) { InSort(less, items, x); }
    SortedKeys(conv, field, descending, column, r);
  }

  lemma SortedKeys(conv: Conversions, field: string, descending: bool, column: Column, r: seq<JsonValue>)
    requires Homogeneous(column, field, r) && Sorted(Before(conv, field, descending), r)
    ensures MissingLast(field, r) && KeysInOrder(conv, field, descending, r)
  {
    var less := Before(conv, field, descending);
    forall i, j | 0 <= i < j < |r| && Has(r[j], field) ensures Has(r[i], field) {
      assert !less(r[j], r[i]);
    }
    forall i, j | 0 <= i < j < |r| && Has(r[i], field) && Has(r[j], field)
      ensures var cmp := CompareJson(conv, r[i].fields[field], r[j].fields[field]);
              if descending then cmp >= 0 else cmp <= 0
    {
      assert !less(r[j], r[i]);
      assert Fits(column, field, r[i]) && Fits(column, field, r[j]);
      KeysCompare(conv, column, r[i].fields[field], r[j].fields[field]);
      KeysCompare(conv, column, r[j].fields[field], r[i].fields[field]);
      hide CompareJson;
    }
  }

  /** Whatever the arguments of `where`: filtering the sorted table is sorting the filtered one. */
  lemma WhereCommutesWithSortBy(conv: Conversions, whereArgs: seq<string>, sortArgs: seq<string>,
                                column: Column, input: JsonValue)
    requires sortArgs != [] && input.Arr? ==> Homogeneous(column, sortArgs[0], input.items)
    ensures Where(conv, whereArgs, SortBy(conv, sortArgs, input))
            == SortBy(conv, sortArgs, Where(conv, whereArgs, input))
  {
    if sortArgs != [] && input.Arr? && |whereArgs| >= 3 {
      var less := Before(conv, sortArgs[0], Descending(sortArgs));
      var keep := Kept(conv, whereArgs[0], whereArgs[1], conv.autoType(RawValue(whereArgs)));
      ColumnIsOrdered(conv, sortArgs[0], Descending(sortArgs), column, input.items);
      FilterOfSort(less, keep, input.items);
    }
  }

  // The comparisons, spelled out.

  /** On numbers each operator makes its own comparison; an operator that is none of these keeps nothing. */
  lemma KeepsNumbers(conv: Conversions, field: string, item: JsonValue, x: real, y: real)
    requires Has(item, field) && item.fields[field] == Num(Fin(x))
    ensures Keeps(conv, field, "==", Num(Fin(y)), item) <==> x == y
    ensures Keeps(conv, field, "=", Num(Fin(y)), item) <==> x == y
    ensures Keeps(conv, field, "!=", Num(Fin(y)), item) <==> x != y
    ensures Keeps(conv, field, ">", Num(Fin(y)), item) <==> x > y
    ensures Keeps(conv, field, "<", Num(Fin(y)), item) <==> x < y
    ensures Keeps(conv, field, ">=", Num(Fin(y)), item) <==> x >= y
    ensures Keeps(conv, field, "<=", Num(Fin(y)), item) <==> x <= y
    ensures forall op :: op !in {"==", "=", "!=", ">", "<", ">=", "<="} ==> !Keeps(conv, field, op, Num(Fin(y)), item)
  {
  }

  /** `a` stands before `b` in a dictionary of bytes. */
  predicate Earlier(a: string, b: string) {
    exists k :: 0 <= k <= |a| && k < |b| && a[..k] == b[..k] && (k == |a| || a[k] < b[k])
  }

  lemma {:induction false} CompareIsDictionary(a: string, b: string)
    ensures CompareStrings(a, b) < 0 <==> Earlier(a, b)
    decreases |a|
  {
    if a == "" {
      if b != "" { assert a[..0] == b[..0]; }
    } else if b != "" && a[0] == b[0] {
      CompareIsDictionary(a[1..], b[1..]);
      if Earlier(a[1..], b[1..]) {
        var k :|
          0 <= k <= |a[1..]| && k < |b[1..]| && a[1..][..k] == b[1..][..k] && (k == |a[1..]| || a[1..][k] < b[1..][k]);
        assert a[..k + 1] == [a[0]] + a[1..][..k] && b[..k + 1] == [b[0]] + b[1..][..k];
      }
      if Earlier(a, b) {
        var k :| 0 <= k <= |a| && k < |b| && a[..k] == b[..k] && (k == |a| || a[k] < b[k]);
        assert k > 0;
        assert a[1..][..k - 1] == a[..k][1..] && b[1..][..k - 1] == b[..k][1..];
      }
    } else if b != "" {
      if a[0] < b[0] { assert a[..0] == b[..0]; }
    }
  }

  /** A string as it is, anything else as it is shown. */
  function TextOf(conv: Conversions, v: JsonValue): string {
    match v
    case Str(s) => s
    case Null => conv.show(Null)
    case Bool(b) => conv.show(Bool(b))
    case Num(n) => conv.show(Num(n))
    case Arr(items) => conv.show(Arr(items))
    case Obj(fields) => conv.show(Obj(fields))
  }

  /** Anything else is compared by its text, in the order of the dictionary; nulls and booleans are no exception. */
  lemma KeepsTexts(conv: Conversions, field: string, item: JsonValue, operand: JsonValue)
    requires Has(item, field) && !(item.fields[field].Num? && operand.Num?)
    ensures var x, y := TextOf(conv, item.fields[field]), TextOf(conv, operand);
            && (Keeps(conv, field, "==", operand, item) <==> x == y)
            && (Keeps(conv, field, "!=", operand, item) <==> x != y)
            && (Keeps(conv, field, ">", operand, item) <==> Earlier(y, x))
            && (Keeps(conv, field, "<", operand, item) <==> Earlier(x, y))
            && (Keeps(conv, field, ">=", operand, item) <==> !Earlier(x, y))
            && (Keeps(conv, field, "<=", operand, item) <==> !Earlier(y, x))
  {
    var x, y := TextOf(conv, item.fields[field]), TextOf(conv, operand);
    assert x == ValueToString(conv, item.fields[field]) && y == ValueToString(conv, operand);
    CompareIsDictionary(x, y);
    CompareIsDictionary(y, x);
    CompareAntisymmetric(x, y);
    CompareAntisymmetric(y, x);
    hide CompareStrings, Earlier;
  }

  /** `where` keeps, of the rows of the input, exactly those that satisfy the comparison. */
  lemma WhereKeeps(conv: Conversions, args: seq<string>, items: seq<JsonValue>, item: JsonValue)
    requires |args| >= 3
    ensures Where(conv, args, Arr(items)).Arr?
    ensures item in Where(conv, args, Arr(items)).items <==>
            item in items && Keeps(conv, args[0], args[1], conv.autoType(OperandText(args[2..])), item)
  {
    FilterElements(Kept(conv, args[0], args[1], conv.autoType(RawValue(args))), items, item);
    RawValueIs(args);
    hide Keeps;
  }

  /** The operand: its words with single spaces between them. */
  function OperandText(words: seq<string>): string {
    if words == [] then "" else if |words| == 1 then words[0] else words[0] + (" " + OperandText(words[1..]))
  }

  lemma {:induction false} OperandTextSnoc(words: seq<string>, last: string)
    requires words != []
    ensures OperandText(words + [last]) == OperandText(words) + (" " + last)
    decreases |words|
  {
    var all := words + [last];
    if |words| == 1 {
      assert all[1..] == [last];
    } else {
      assert all[1..] == words[1..] + [last];
      OperandTextSnoc(words[1..], last);
      assert words[0] + (" " + (OperandText(words[1..]) + (" " + last))) ==
             words[0] + (" " + OperandText(words[1..])) + (" " + last);
    }
  }

  lemma {:induction false} RawValueIs(args: seq<string>)
    requires |args| >= 3
    ensures RawValue(args) == OperandText(args[2..])
    decreases |args|
  {
    if |args| > 3 {
      var n := |args| - 1;
      RawValueIs(args[..n]);
      assert args[2..] == args[..n][2..] + [args[n]];
      OperandTextSnoc(args[..n][2..], args[n]);
      assert OperandText(args[..n][2..]) + " " + args[n] == OperandText(args[..n][2..]) + (" " + args[n]);
    }
  }

  /** `--desc` or `-d` anywhere after the field turns the order round, and nothing else does. */
  lemma DescendingIs(args: seq<string>)
    requires args != []
    ensures Descending(args) <==> "--desc" in args[1..] || "-d" in args[1..]
  {
    if Descending(args) {
      var i :| 1 <= i < |args| && (args[i] == "--desc" || args[i] == "-d");
      assert args[1..][i - 1] == args[i];
    }
    if s :| s in args[1..] && (s == "--desc" || s == "-d") {
      var i :| 0 <= i < |args[1..]| && args[1..][i] == s;
      assert args[i + 1] == s;
    }
  }

  /** Sorted numbers ascend, or descend when that is asked for. */
  lemma SortedNumbersAscend(conv: Conversions, args: seq<string>, items: seq<JsonValue>, i: nat, j: nat,
                            x: real, y: real)
    requires args != [] && Homogeneous(Numbers, args[0], items) && SortBy(conv, args, Arr(items)).Arr?
    requires var r := SortBy(conv, args, Arr(items)).items;
             && i < j < |r| && Has(r[i], args[0]) && Has(r[j], args[0])
             && r[i].fields[args[0]] == Num(Fin(x)) && r[j].fields[args[0]] == Num(Fin(y))
    ensures if "--desc" in args[1..] || "-d" in args[1..] then x >= y else x <= y
  {
    SortByIsStableSort(conv, args, Numbers, items);
    DescendingIs(args);
    hide SortBy, Descending;
  }

  /** Sorted strings follow the dictionary, or its reverse. */
  lemma SortedStringsAscend(conv: Conversions, args: seq<string>, items: seq<JsonValue>, i: nat, j: nat,
                            x: string, y: string)
    requires args != [] && Homogeneous(Texts, args[0], items) && SortBy(conv, args, Arr(items)).Arr?
    requires var r := SortBy(conv, args, Arr(items)).items;
             && i < j < |r| && Has(r[i], args[0]) && Has(r[j], args[0])
             && r[i].fields[args[0]] == Str(x) && r[j].fields[args[0]] == Str(y)
    ensures if "--desc" in args[1..] || "-d" in args[1..] then !Earlier(x, y) else !Earlier(y, x)
  {
    SortByIsStableSort(conv, args, Texts, items);
    DescendingIs(args);
    CompareIsDictionary(x, y);
    CompareIsDictionary(y, x);
    CompareAntisymmetric(x, y);
    hide SortBy, Descending, CompareStrings, Earlier;
  }
}
