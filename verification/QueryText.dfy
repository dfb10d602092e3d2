/** The statement builders: rows of parameters are printed as numbered placeholders
    into one VALUES list and the parameters kept aside in one flat list.  A parser of
    such lists shows that nothing is lost. */
module QueryText {
  import opened Wrappers

  /** How many values a row has, and which of them are cast. */
  datatype RowShape = RowShape(arity: nat, types: map<nat, string>)

  /* Printing. */

  function DigitChar(d: nat): char
    requires d < 10
  {
    "0123456789"[d]
  }

  function Digits(n: nat): (s: string)
    ensures s != ""
  {
    if n < 10 then [DigitChar(n)] else Digits(n / 10) + [DigitChar(n % 10)]
  }

  function ItemText(used: nat, types: map<nat, string>, i: nat): string {
    var number := "$" + Digits(i + 1 + used);
    if i in types then number + ("::" + types[i]) else number
  }

  function Separated(first: bool, text: string): string {
    if first then text else "," + text
  }

  /** The first n texts with commas between them. */
  function Listed(item: nat -> string, n: nat): string {
    if n == 0 then "" else Listed(item, n - 1) + Separated(n == 1, item(n - 1))
  }

  /** The placeholders of a row, numbered after those used before. */
  function Items(used: nat, types: map<nat, string>): nat -> string {
    (i: nat) => ItemText(used, types, i)
  }

  function ItemsText(used: nat, types: map<nat, string>, n: nat): string { Listed(Items(used, types), n) }

  function RowText(used: nat, shape: RowShape): string {
    "(" + ItemsText(used, shape.types, shape.arity) + ")"
  }

  function Used(shapes: seq<RowShape>): nat {
    if shapes == [] then 0 else Used(shapes[..|shapes| - 1]) + shapes[|shapes| - 1].arity
  }

  function ValuesText(shapes: seq<RowShape>): string {
    if shapes == [] then ""
    else
      var n := |shapes| - 1;
      ValuesText(shapes[..n]) + ((if n == 0 then " " else ",") + RowText(Used(shapes[..n]), shapes[n]))
  }

  function Flatten<P>(rows: seq<seq<P>>): seq<P> {
    if rows == [] then [] else Flatten(rows[..|rows| - 1]) + rows[|rows| - 1]
  }

  ghost predicate Fits<P>(rows: seq<seq<P>>, shapes: seq<RowShape>) {
    |rows| == |shapes| && forall k :: 0 <= k < |rows| ==> |rows[k]| == shapes[k].arity
  }

  /** Prints one row of placeholders, as both builders do. */
  method PrintRow(used: nat, n: nat, types: map<nat, string>) returns (text: string)
    ensures text == RowText(used, RowShape(n, types))
  {
    text := "(";
    for i := 0 to n
      invariant text == "(" + ItemsText(used, types, i)
    {
      var item := "$" + Digits(i + 1 + used);
      if i in types {
        item := item + ("::" + types[i]);
      }
      var piece := if i > 0 then "," + item else item;
      Associative("(", ItemsText(used, types, i), piece);
      text := text + piece;
    }
    text := text + ")";
  }

  lemma {:induction false} Associative(a: string, b: string, c: string)
    ensures (a + b) + c == a + (b + c)
  {
  }

  /** The statement and the parameters print the rows added so far. */
  ghost predicate Prints<P>(
      statement: string, params: seq<P>, count: nat, header: string, rows: seq<seq<P>>, shapes: seq<RowShape>) {
    && Fits(rows, shapes) && count == |rows|
    && statement == header + ValuesText(shapes)
    && params == Flatten(rows)
  }

  class InsertQueryCombiner<P> {
    var insertions: nat
    var statement: string
    var params: seq<P>
    ghost const header: string
    ghost var rows: seq<seq<P>>
    ghost var shapes: seq<RowShape>

    ghost predicate Valid()
      reads this
    {
      Prints(statement, params, insertions, header, rows, shapes)
    }

    constructor (tableName: string, columns: string)
      ensures Valid() && rows == [] && header == "INSERT INTO " + tableName + " (" + columns + ") VALUES"
    {
      insertions, params, rows, shapes := 0, [], [], [];
      statement := "INSERT INTO " + tableName + " (" + columns + ") VALUES";
      header := "INSERT INTO " + tableName + " (" + columns + ") VALUES";
    }

    method Add(values: seq<P>)
      requires Valid()
      modifies this
      ensures rows == old(rows) + [values] && shapes == old(shapes) + [RowShape(|values|, map[])]
      ensures Valid()
    {
      var separator := if insertions == 0 then " " else ",";
      var row := PrintRow(|params|, |values|, map[]);
      ghost var moreRows, moreShapes := rows + [values], shapes + [RowShape(|values|, map[])];
      PrintsMore(statement, params, insertions, header, rows, shapes, values, map[], separator, row);
      rows, shapes := moreRows, moreShapes;
      params, statement, insertions := params + values, statement + (separator + row), insertions + 1;
    }

    /** Nothing is sent for no rows. */
    method Execute() returns (sent: Option<(string, seq<P>)>)
      requires Valid()
      ensures sent == if rows == [] then None else Some((header + ValuesText(shapes), Flatten(rows)))
    {
      sent := if insertions == 0 then None else Some((statement, params));
    }
  }

  class UpdateQueryCombiner<P> {
    var updates: nat
    var statement: string
    const valuesNames: string
    const whereCondition: string
    var params: seq<P>
    ghost const header: string
    ghost var rows: seq<seq<P>>
    ghost var shapes: seq<RowShape>

    ghost predicate Valid()
      reads this
    {
      Prints(statement, params, updates, header, rows, shapes)
    }

    constructor (tableName: string, updateText: string, valuesNames: string, whereCondition: string)
      ensures Valid() && rows == [] && header == "UPDATE " + tableName + " SET " + updateText + " FROM (VALUES"
      ensures this.valuesNames == valuesNames && this.whereCondition == whereCondition
    {
      updates, params, rows, shapes := 0, [], [], [];
      statement := "UPDATE " + tableName + " SET " + updateText + " FROM (VALUES";
      header := "UPDATE " + tableName + " SET " + updateText + " FROM (VALUES";
      this.valuesNames, this.whereCondition := valuesNames, whereCondition;
    }

    method Add(values: seq<P>, types: map<nat, string>)
      requires Valid()
      modifies this
      ensures rows == old(rows) + [values] && shapes == old(shapes) + [RowShape(|values|, types)]
      ensures Valid()
    {
      var separator := if updates == 0 then " " else ",";
      var row := PrintRow(|params|, |values|, types);
      ghost var moreRows, moreShapes := rows + [values], shapes + [RowShape(|values|, types)];
      PrintsMore(statement, params, updates, header, rows, shapes, values, types, separator, row);
      rows, shapes := moreRows, moreShapes;
      params, statement, updates := params + values, statement + (separator + row), updates + 1;
    }

    /** Completes the statement; after that no row can be added. */
    method Execute() returns (sent: Option<(string, seq<P>)>)
      requires Valid()
      modifies this`statement
      ensures sent == if rows == [] then None
        else Some((header + ValuesText(shapes) + (") AS " + valuesNames + " WHERE " + whereCondition), Flatten(rows)))
    {
      if updates == 0 {
        return None;
      }
      statement := statement + (") AS " + valuesNames + " WHERE " + whereCondition);
      sent := Some((statement, params));
    }
  }

  lemma {:induction false} FlattenLength<P>(rows: seq<seq<P>>, shapes: seq<RowShape>)
    requires Fits(rows, shapes)
    ensures |Flatten(rows)| == Used(shapes)
  {
    if rows != [] {
      FlattenLength(rows[..|rows| - 1], shapes[..|shapes| - 1]);
    }
  }

  lemma {:induction false} AddedRow<P>(
      rows: seq<seq<P>>, shapes: seq<RowShape>, values: seq<P>, types: map<nat, string>)
    requires Fits(rows, shapes)
    ensures Flatten(rows + [values]) == Flatten(rows) + values
    ensures Fits(rows + [values], shapes + [RowShape(|values|, types)])
  {
    assert (rows + [values])[..|rows|] == rows;
  }

  lemma {:induction false} AddedText(
      statement: string, header: string, shapes: seq<RowShape>, shape: RowShape, separator: string, row: string)
    requires statement == header + ValuesText(shapes) && row == RowText(Used(shapes), shape)
    requires separator == if shapes == [] then " " else ","
    ensures statement + (separator + row) == header + ValuesText(shapes + [shape])
  {
    assert (shapes + [shape])[..|shapes|] == shapes;
    Associative(header, ValuesText(shapes), separator + row);
  }

  lemma {:induction false} PrintsMore<P>(
      statement: string, params: seq<P>, count: nat, header: string, rows: seq<seq<P>>, shapes: seq<RowShape>,
      values: seq<P>, types: map<nat, string>, separator: string, row: string)
    requires Prints(statement, params, count, header, rows, shapes)
    requires row == RowText(|params|, RowShape(|values|, types)) && separator == if count == 0 then " " else ","
    ensures Prints(statement + (separator + row), params + values, count + 1, header, rows + [values],
      shapes + [RowShape(|values|, types)])
  {
    FlattenLength(rows, shapes);
    AddedRow(rows, shapes, values, types);
    AddedText(statement, header, shapes, RowShape(|values|, types), separator, row);
  }

  /* Parsing. */

  predicate IsDigit(c: char) { '0' <= c <= '9' }

  function DigitValue(c: char): nat
    requires IsDigit(c)
  {
    c as nat - '0' as nat
  }

  function ReadNumber(s: string, read: nat): (r: (nat, string))
    ensures |r.1| <= |s|
  {
    if s != "" && IsDigit(s[0]) then ReadNumber(s[1..], 10 * read + DigitValue(s[0])) else (read, s)
  }

  /** A placeholder: its number and its cast, if it has one. */
  datatype Placeholder = Placeholder(number: nat, cast: Option<string>)

  /** A name up to the character that ends it, and the text behind. */
  function ReadName(s: string): (r: (string, string))
    ensures |r.1| <= |s|
  {
    if s == "" || s[0] == ',' || s[0] == ')' then ("", s)
    else
      var (name, rest) := ReadName(s[1..]);
      ([s[0]] + name, rest)
  }

  function ReadCast(s: string): (r: (Option<string>, string))
    ensures |r.1| <= |s|
  {
    if |s| >= 2 && s[0] == ':' && s[1] == ':' then
      var (name, rest) := ReadName(s[2..]);
      (Some(name), rest)
    else (None, s)
  }

  function ReadItem(s: string): (r: Option<(Placeholder, string)>)
    ensures r.Some? ==> |r.value.1| < |s|
  {
    if |s| < 2 || s[0] != '$' || !IsDigit(s[1]) then None
    else
      var (n, rest) := ReadNumber(s[1..], 0);
      var (cast, tail) := ReadCast(rest);
      Some((Placeholder(n, cast), tail))
  }

  /** Placeholders separated by commas, after some already read. */
  function ReadItems(s: string, read: seq<Placeholder>): (r: Option<(seq<Placeholder>, string)>)
    ensures r.Some? ==> |r.value.1| < |s|
    decreases |s|
  {
    var item := ReadItem(s);
    if item.None? then None
    else
      var (n, rest) := item.value;
      if rest != "" && rest[0] == ',' then ReadItems(rest[1..], read + [n]) else Some((read + [n], rest))
  }

  function ReadRow(s: string): (r: Option<(seq<Placeholder>, string)>)
    ensures r.Some? ==> |r.value.1| < |s|
  {
    if |s| < 2 || s[0] != '(' then None
    else if s[1] == ')' then Some(([], s[2..]))
    else
      var items := ReadItems(s[1..], []);
      if items.None? || items.value.1 == "" || items.value.1[0] != ')' then None
      else Some((items.value.0, items.value.1[1..]))
  }

  function ReadRows(s: string, read: seq<seq<Placeholder>>): Option<(seq<seq<Placeholder>>, string)>
    decreases |s|
  {
    var row := ReadRow(s);
    if row.None? then None
    else AfterRow(row.value.1, read + [row.value.0])
  }

  function AfterRow(rest: string, read: seq<seq<Placeholder>>): Option<(seq<seq<Placeholder>>, string)>
    decreases |rest|
  {
    if rest != "" && rest[0] == ',' then ReadRows(rest[1..], read) else Some((read, rest))
  }

  /** A VALUES list: the placeholders row by row, and the text behind. */
  function ReadValues(s: string): Option<(seq<seq<Placeholder>>, string)> {
    if s == "" || s[0] != ' ' then None else ReadRows(s[1..], [])
  }

  /** Puts the parameters in the place of the placeholders, whose numbers count from one. */
  function Bind<P>(holders: seq<seq<Placeholder>>, params: seq<P>): Option<seq<seq<P>>> {
    if forall k, i :: 0 <= k < |holders| && 0 <= i < |holders[k]| ==> 1 <= holders[k][i].number <= |params| then
      Some(seq(|holders|, k requires 0 <= k < |holders| =>
        seq(|holders[k]|, i requires 0 <= i < |holders[k]| &&
          1 <= holders[k][i].number <= |params| => params[holders[k][i].number - 1])))
    else None
  }

  /* Reading back what was printed. */

  /** A cast does not contain the characters that end it in a VALUES list. */
  ghost predicate PlainCasts(types: map<nat, string>) {
    forall i :: i in types ==> forall c :: c in types[i] ==> c != ',' && c != ')'
  }

  /** Text that cannot continue a placeholder. */
  ghost predicate EndsItem(rest: string) {
    rest != "" && (rest[0] == ',' || rest[0] == ')')
  }

  lemma {:induction false} DigitRead(d: nat, rest: string, read: nat)
    requires d < 10
    ensures ReadNumber([DigitChar(d)] + rest, read) == ReadNumber(rest, 10 * read + d)
    ensures IsDigit(DigitChar(d))
  {
    assert ([DigitChar(d)] + rest)[1..] == rest;
  }

  lemma {:induction false} NumberRead(n: nat, rest: string)
    ensures ReadNumber(Digits(n) + rest, 0) == ReadNumber(rest, n)
    ensures IsDigit(Digits(n)[0])
  {
    if n < 10 {
      DigitRead(n, rest, 0);
    } else {
      var last := [DigitChar(n % 10)];
      NumberRead(n / 10, last + rest);
      Associative(Digits(n / 10), last, rest);
      DigitRead(n % 10, rest, n / 10);
    }
  }

  lemma {:induction false} NameRead(name: string, rest: string)
    requires EndsItem(rest) && forall c :: c in name ==> c != ',' && c != ')'
    ensures ReadName(name + rest) == (name, rest)
  {
    if name == "" {
      assert name + rest == rest;
    } else {
      assert name[0] in name;
      assert (name + rest)[1..] == name[1..] + rest;
      assert forall c :: c in name[1..] ==> c in name;
      NameRead(name[1..], rest);
      assert [name[0]] + name[1..] == name;
    }
  }

  lemma {:induction false} CastRead(name: string, rest: string)
    requires EndsItem(rest) && forall c :: c in name ==> c != ',' && c != ')'
    ensures ReadCast(("::" + name) + rest) == (Some(name), rest)
    ensures ReadCast(rest) == (None, rest)
  {
    assert (("::" + name) + rest)[2..] == name + rest;
    NameRead(name, rest);
  }

  lemma {:induction false} ItemReadBefore(used: nat, types: map<nat, string>, i: nat, rest: string)
    requires EndsItem(rest) && PlainCasts(types)
    ensures ReadItem(ItemText(used, types, i) + rest) == Some((Holder(used, types, i), rest))
  {
    var n := i + 1 + used;
    var cast := if i in types then "::" + types[i] else "";
    var tail := cast + rest;
    assert ItemText(used, types, i) + rest == "$" + (Digits(n) + tail);
    NumberRead(n, tail);
    NoDigitFirst(tail, n);
    ReadItemAt(n, tail);
    if i in types {
      CastRead(types[i], rest);
    } else {
      assert tail == rest;
      CastRead("", rest);
    }
  }

  lemma {:induction false} NoDigitFirst(tail: string, n: nat)
    requires tail != "" && !IsDigit(tail[0])
    ensures ReadNumber(tail, n) == (n, tail)
  {
  }

  lemma {:induction false} ReadItemAt(n: nat, tail: string)
    requires ReadNumber(Digits(n) + tail, 0) == (n, tail) && IsDigit(Digits(n)[0])
    ensures ReadItem("$" + (Digits(n) + tail)) == Some((Placeholder(n, ReadCast(tail).0), ReadCast(tail).1))
  {
    var s := "$" + (Digits(n) + tail);
    assert s[1..] == Digits(n) + tail;
    assert s[1] == Digits(n)[0];
  }

  /** A placeholder of a row, numbered after those used before. */
  function Holder(used: nat, types: map<nat, string>, i: nat): Placeholder {
    Placeholder(i + 1 + used, if i in types then Some(types[i]) else None)
  }

  function Holders(used: nat, types: map<nat, string>, n: nat): (r: seq<Placeholder>)
    ensures |r| == n && forall i :: 0 <= i < n ==> r[i] == Holder(used, types, i)
  {
    if n == 0 then [] else Holders(used, types, n - 1) + [Holder(used, types, n - 1)]
  }

  function AfterItem(rest: string, read: seq<Placeholder>): Option<(seq<Placeholder>, string)> {
    if rest != "" && rest[0] == ',' then ReadItems(rest[1..], read) else Some((read, rest))
  }

  lemma {:induction false} CommaDropped(text: string, rest: string)
    ensures (("," + text) + rest)[0] == ',' && (("," + text) + rest)[1..] == text + rest
  {
  }

  /** A text that reads as one placeholder wherever a placeholder may end. */
  ghost predicate ReadsItem(text: string, n: Placeholder) {
    forall rest :: EndsItem(rest) ==> ReadItem(text + rest) == Some((n, rest))
  }

  /** A text that reads as these placeholders, whatever follows. */
  ghost predicate ReadsItems(text: string, holders: seq<Placeholder>) {
    forall rest :: EndsItem(rest) ==> ReadItems(text + rest, []) == AfterItem(rest, holders)
  }

  lemma {:induction false} ReadItemsStep(item: string, rest: string, read: seq<Placeholder>, n: Placeholder)
    requires ReadsItem(item, n) && EndsItem(rest)
    ensures ReadItems(item + rest, read) == AfterItem(rest, read + [n])
  {
  }

  lemma {:induction false} ReadItemsFirst(item: string, n: Placeholder)
    requires ReadsItem(item, n)
    ensures ReadsItems(item, [n])
  {
    forall rest | EndsItem(rest) ensures ReadItems(item + rest, []) == AfterItem(rest, [n]) {
      ReadItemsStep(item, rest, [], n);
      assert [] + [n] == [n];
    }
  }

  lemma {:induction false} ReadItemsMore(items: string, item: string, before: seq<Placeholder>, n: Placeholder)
    requires ReadsItem(item, n) && ReadsItems(items, before)
    ensures ReadsItems(items + ("," + item), before + [n])
  {
    forall rest | EndsItem(rest) ensures ReadItems((items + ("," + item)) + rest, []) == AfterItem(rest, before + [n]) {
      AfterItemMore(item, rest, before, n);
      ReadItemsBefore(items, "," + item, rest, before);
    }
  }

  lemma {:induction false} ReadItemsBefore(items: string, more: string, rest: string, before: seq<Placeholder>)
    requires ReadsItems(items, before) && EndsItem(more + rest)
    ensures ReadItems((items + more) + rest, []) == AfterItem(more + rest, before)
  {
    Associative(items, more, rest);
  }

  lemma {:induction false} AfterItemMore(item: string, rest: string, before: seq<Placeholder>, n: Placeholder)
    requires ReadsItem(item, n) && EndsItem(rest)
    ensures AfterItem(("," + item) + rest, before) == AfterItem(rest, before + [n])
  {
    CommaDropped(item, rest);
    ReadItemsStep(item, rest, before, n);
  }

  lemma {:induction false} ItemRead(used: nat, types: map<nat, string>, i: nat)
    requires PlainCasts(types)
    ensures ReadsItem(ItemText(used, types, i), Holder(used, types, i))
  {
    forall rest | EndsItem(rest) ensures ReadItem(ItemText(used, types, i) + rest) ==
      Some((Holder(used, types, i), rest)) {
      ItemReadBefore(used, types, i, rest);
    }
  }

  lemma {:induction false} ListedRead(item: nat -> string, used: nat, types: map<nat, string>, n: nat)
    requires 0 < n && forall i :: 0 <= i < n ==> ReadsItem(item(i), Holder(used, types, i))
    ensures ReadsItems(Listed(item, n), Holders(used, types, n))
  {
    if n == 1 {
      ReadItemsFirst(item(0), Holder(used, types, 0));
      assert Listed(item, 1) == item(0) && Holders(used, types, 1) == [Holder(used, types, 0)];
    } else {
      ListedRead(item, used, types, n - 1);
      ReadItemsMore(Listed(item, n - 1), item(n - 1), Holders(used, types, n - 1), Holder(used, types, n - 1));
    }
  }

  lemma {:induction false} ItemsRead(used: nat, types: map<nat, string>, n: nat)
    requires 0 < n && PlainCasts(types)
    ensures ReadsItems(ItemsText(used, types, n), Holders(used, types, n))
  {
    var item := Items(used, types);
    forall i | 0 <= i < n ensures ReadsItem(item(i), Holder(used, types, i)) {
      ItemRead(used, types, i);
    }
    ListedRead(item, used, types, n);
  }

  lemma {:induction false} ListedStart(item: nat -> string, n: nat)
    requires 0 < n && item(0) != ""
    ensures Listed(item, n) != "" && Listed(item, n)[0] == item(0)[0]
  {
    if n > 1 {
      ListedStart(item, n - 1);
    }
  }

  lemma {:induction false} ItemsStart(used: nat, types: map<nat, string>, n: nat)
    requires 0 < n
    ensures ItemsText(used, types, n) != "" && ItemsText(used, types, n)[0] == '$'
  {
    ListedStart(Items(used, types), n);
  }

  lemma {:induction false} ReadRowItems(items: string, holders: seq<Placeholder>, rest: string)
    requires items != "" && items[0] == '$' && ReadItems(items + (")" + rest), []) == Some((holders, ")" + rest))
    ensures ReadRow(("(" + items + ")") + rest) == Some((holders, rest))
  {
    var s := ("(" + items + ")") + rest;
    assert s[1..] == items + (")" + rest);
    assert (")" + rest)[1..] == rest;
  }

  lemma {:induction false} ReadRowEmpty(rest: string)
    ensures ReadRow(("(" + "" + ")") + rest) == Some(([], rest))
  {
    assert (("(" + "" + ")") + rest)[2..] == rest;
  }

  lemma {:induction false} RowRead(used: nat, shape: RowShape, rest: string)
    requires PlainCasts(shape.types)
    ensures ReadRow(RowText(used, shape) + rest) == Some((Holders(used, shape.types, shape.arity), rest))
  {
    if shape.arity > 0 {
      ItemsStart(used, shape.types, shape.arity);
      ItemsRead(used, shape.types, shape.arity);
      assert EndsItem(")" + rest);
      ReadRowItems(ItemsText(used, shape.types, shape.arity), Holders(used, shape.types, shape.arity), rest);
    } else {
      ReadRowEmpty(rest);
    }
  }

  /** The holders of all rows, counting on from row to row. */
  function RowHolders(shapes: seq<RowShape>): (r: seq<seq<Placeholder>>)
    ensures |r| == |shapes|
  {
    if shapes == [] then []
    else
      var n := |shapes| - 1;
      RowHolders(shapes[..n]) + [Holders(Used(shapes[..n]), shapes[n].types, shapes[n].arity)]
  }

  lemma {:induction false} ReadRowsStep(
      row: string, rest: string, read: seq<seq<Placeholder>>, holders: seq<Placeholder>)
    requires Readable(row, holders)
    ensures ReadRows(row + rest, read) == AfterRow(rest, read + [holders])
  {
  }

  /** A text that reads as one row, whatever follows. */
  ghost predicate Readable(text: string, holders: seq<Placeholder>) {
    forall rest :: ReadRow(text + rest) == Some((holders, rest))
  }

  /** A text that reads as the start of a VALUES list, whatever follows. */
  ghost predicate ReadsValues(text: string, holders: seq<seq<Placeholder>>) {
    forall rest :: ReadValues(text + rest) == AfterRow(rest, holders)
  }

  lemma {:induction false} ReadValuesStep(row: string, rest: string)
    ensures ReadValues((" " + row) + rest) == ReadRows(row + rest, [])
  {
    assert ((" " + row) + rest)[1..] == row + rest;
  }

  lemma {:induction false} ReadValuesFirst(row: string, holders: seq<Placeholder>)
    requires Readable(row, holders)
    ensures ReadsValues(" " + row, [holders])
  {
    forall rest ensures ReadValues((" " + row) + rest) == AfterRow(rest, [holders]) {
      ReadValuesStep(row, rest);
      ReadRowsStep(row, rest, [], holders);
      assert [] + [holders] == [holders];
    }
  }

  lemma {:induction false} ReadValuesMore(
      rows: string, row: string, before: seq<seq<Placeholder>>, holders: seq<Placeholder>)
    requires ReadsValues(rows, before) && Readable(row, holders)
    ensures ReadsValues(rows + ("," + row), before + [holders])
  {
    forall rest ensures ReadValues((rows + ("," + row)) + rest) == AfterRow(rest, before + [holders]) {
      Associative(rows, "," + row, rest);
      CommaDropped(row, rest);
      ReadRowsStep(row, rest, before, holders);
    }
  }

  lemma {:induction false} LastReadable(used: nat, shape: RowShape)
    requires PlainCasts(shape.types)
    ensures Readable(RowText(used, shape), Holders(used, shape.types, shape.arity))
  {
    forall rest ensures ReadRow(RowText(used, shape) + rest) == Some((Holders(used, shape.types, shape.arity), rest)) {
      RowRead(used, shape, rest);
    }
  }

  lemma {:induction false} RowsRead(shapes: seq<RowShape>)
    requires shapes != [] && forall k :: 0 <= k < |shapes| ==> PlainCasts(shapes[k].types)
    ensures ReadsValues(ValuesText(shapes), RowHolders(shapes))
  {
    var n := |shapes| - 1;
    var earlier, used, shape := shapes[..n], Used(shapes[..n]), shapes[n];
    LastReadable(used, shape);
    if n == 0 {
      ReadValuesFirst(RowText(used, shape), Holders(used, shape.types, shape.arity));
      assert ValuesText(shapes) == " " + RowText(used, shape);
      assert RowHolders(shapes) == [Holders(used, shape.types, shape.arity)];
    } else {
      RowsRead(earlier);
      ReadValuesMore(ValuesText(earlier), RowText(used, shape), RowHolders(earlier),
        Holders(used, shape.types, shape.arity));
    }
  }

  /** Printer and parser: the list that was printed reads back as the rows of
      placeholders, with or without casts. */
  lemma {:induction false} ValuesRead(shapes: seq<RowShape>, rest: string)
    requires shapes != [] && forall k :: 0 <= k < |shapes| ==> PlainCasts(shapes[k].types)
    requires rest == "" || rest[0] != ','
    ensures ReadValues(ValuesText(shapes) + rest) == Some((RowHolders(shapes), rest))
  {
    RowsRead(shapes);
  }

  /** The placeholders are numbered from one in order, each used once. */
  lemma {:induction false} NumbersInOrder(shapes: seq<RowShape>)
    ensures |Flatten(RowHolders(shapes))| == Used(shapes)
    ensures forall i :: 0 <= i < Used(shapes) ==> Flatten(RowHolders(shapes))[i].number == i + 1
  {
    if shapes != [] {
      var n := |shapes| - 1;
      NumbersInOrder(shapes[..n]);
      assert RowHolders(shapes)[..n] == RowHolders(shapes[..n]);
    }
  }

  /** Every placeholder has the cast its row asks for, and no other has one. */
  lemma {:induction false} CastsInPlace(shapes: seq<RowShape>, k: nat, i: nat)
    requires k < |shapes| && i < shapes[k].arity
    ensures i < |RowHolders(shapes)[k]|
    ensures RowHolders(shapes)[k][i].cast == if i in shapes[k].types then Some(shapes[k].types[i]) else None
  {
    var n := |shapes| - 1;
    if k < n {
      CastsInPlace(shapes[..n], k, i);
    }
  }

  /** Binding the flat parameters to the holders gives back the rows. */
  lemma {:induction false} RowsBound<P>(rows: seq<seq<P>>, shapes: seq<RowShape>, k: nat, i: nat)
    requires Fits(rows, shapes) && k < |rows| && i < |rows[k]|
    ensures |RowHolders(shapes)[k]| == |rows[k]|
    ensures 1 <= RowHolders(shapes)[k][i].number <= |Flatten(rows)|
    ensures Flatten(rows)[RowHolders(shapes)[k][i].number - 1] == rows[k][i]
  {
    var n := |rows| - 1;
    FlattenLength(rows[..n], shapes[..n]);
    if k < n {
      RowsBound(rows[..n], shapes[..n], k, i);
    }
  }

  lemma {:induction false} RowHoldersFit<P>(rows: seq<seq<P>>, shapes: seq<RowShape>)
    requires Fits(rows, shapes)
    ensures forall k :: 0 <= k < |rows| ==> |RowHolders(shapes)[k]| == |rows[k]|
  {
    if rows != [] {
      var n := |rows| - 1;
      RowHoldersFit(rows[..n], shapes[..n]);
    }
  }

  lemma {:induction false} BindRows<P>(rows: seq<seq<P>>, shapes: seq<RowShape>)
    requires Fits(rows, shapes)
    ensures Bind(RowHolders(shapes), Flatten(rows)) == Some(rows)
  {
    var holders: seq<seq<Placeholder>>, params := RowHolders(shapes), Flatten(rows);
    RowHoldersFit(rows, shapes);
    forall k, i | 0 <= k < |holders| && 0 <= i < |holders[k]|
      ensures 1 <= holders[k][i].number <= |params| && params[holders[k][i].number - 1] == rows[k][i]
    {
      RowsBound(rows, shapes, k, i);
    }
    var bound := Bind(holders, params);
    assert bound.Some?;
    forall k | 0 <= k < |rows| ensures bound.value[k] == rows[k] {
    }
    assert bound.value == rows;
  }

  /** Round trip: what either builder sends, read and bound by the database, is exactly
      the rows that were added. */
  lemma {:induction false} StatementRoundTrip<P>(rows: seq<seq<P>>, shapes: seq<RowShape>, rest: string)
    requires Fits(rows, shapes) && rows != []
    requires forall k :: 0 <= k < |shapes| ==> PlainCasts(shapes[k].types)
    requires rest == "" || rest[0] != ','
    ensures var read := ReadValues(ValuesText(shapes) + rest);
      read.Some? && read.value.1 == rest && Bind(read.value.0, Flatten(rows)) == Some(rows)
  {
    ValuesRead(shapes, rest);
    BindRows(rows, shapes);
  }
}
