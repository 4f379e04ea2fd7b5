/**
 * The query program: reads a projection line (`relation.attribute, ...`) and
 * a FROM line (`relation, ...`), and for every FROM relation prints the
 * requested attribute names followed by one line per stored record of that
 * relation, holding the requested values in order, each in single quotes.
 *
 * The key-value store is an abstract map from key to field map. Its
 * `KEYS relation:*` scan returns the keys with prefix `relation:` in no
 * particular order; the model chooses an arbitrary order and reports it.
 * Printing is modelled as the sequence of printed lines, each a sequence of
 * words (`print(*words, sep=' ')`).
 */
module QueryRedis {
  import opened Wrappers
  import opened Strings

  type Fields = map<string, string>
  type Store = map<string, Fields>

  /** Relation name -> requested attributes, in the order they were named. */
  type Projection = map<string, seq<string>>

  /** The exceptions that end a query. */
  datatype QueryError =
    | MissingLine(index: nat)         // the query file has no line `index`
    | MissingDot(item: string)        // a projection item without `.`
    | UnknownRelation(name: string)   // a FROM relation that the projection does not name
    | MissingAttribute(attr: string)  // a record without a requested attribute

  /** What a query printed, and the error that stopped it, if any. */
  datatype Printed = Printed(lines: seq<seq<string>>, err: Option<QueryError>)

  // ---------------------------------------------------------------------------
  // The projection line

  /** One projection item `relation.attribute`, both parts stripped and lower-cased; components after a second `.` are ignored. */
  function ParseItem(item: string): Option<(string, string)>
  {
    var parts := Split(item, '.');
    if |parts| < 2 then None else Some((Lower(Strip(parts[0])), Lower(Strip(parts[1]))))
  }

  /** An item is rejected exactly when it has no `.`. */
  lemma ParseItemDot(item: string)
    ensures ParseItem(item).None? <==> '.' !in item
  {
    SplitPieces(item, '.');
  }

  /** Parses every item with `parse`, stopping at the first item it rejects. */
  function ParseAll(parse: string -> Option<(string, string)>, items: seq<string>): Result<seq<(string, string)>, QueryError>
  {
    if |items| == 0 then Ok([])
    else
      match ParseAll(parse, items[..|items| - 1])
      case Err(e) => Err(e)
      case Ok(ps) =>
        match parse(items[|items| - 1])
        case None => Err(MissingDot(items[|items| - 1]))
        case Some(p) => Ok(ps + [p])
  }

  /** All items of the projection line, or the first one without a `.`. */
  function ParseItems(items: seq<string>): Result<seq<(string, string)>, QueryError> {
    ParseAll(ParseItem, items)
  }

  /** `ParseAll` succeeds exactly when every item parses, and then item j gives pair j. */
  lemma {:induction false} ParseAllOk(parse: string -> Option<(string, string)>, items: seq<string>)
    ensures ParseAll(parse, items).Ok? <==> forall j :: 0 <= j < |items| ==> parse(items[j]).Some?
    ensures ParseAll(parse, items).Ok? ==>
      && |ParseAll(parse, items).value| == |items|
      && forall j :: 0 <= j < |items| ==> parse(items[j]) == Some(ParseAll(parse, items).value[j])
  {
    var n := |items|;
    if n > 0 {
      var init := items[..n - 1];
      ParseAllOk(parse, init);
      assert forall j :: 0 <= j < n - 1 ==> init[j] == items[j];
    }
  }

  /** A failing `ParseAll` names the first item that does not parse. */
  lemma {:induction false} ParseAllErr(parse: string -> Option<(string, string)>, items: seq<string>)
    requires ParseAll(parse, items).Err?
    ensures exists j :: (0 <= j < |items| && parse(items[j]).None? && (forall i :: 0 <= i < j ==> parse(items[i]).Some?)
      && ParseAll(parse, items).error == MissingDot(items[j]))
  {
    var n := |items|;
    var init := items[..n - 1];
    assert forall j :: 0 <= j < n - 1 ==> init[j] == items[j];
    if ParseAll(parse, init).Err? {
      ParseAllErr(parse, init);
      var j :| 0 <= j < n - 1 && parse(init[j]).None? && (forall i :: 0 <= i < j ==> parse(init[i]).Some?)
        && ParseAll(parse, init).error == MissingDot(init[j]);
      assert parse(items[j]).None?;
    } else {
      ParseAllOk(parse, init);
      assert parse(items[n - 1]).None?;
    }
  }

  /**
   * The items parse exactly when every one has a `.`; then item j gives pair
   * j; otherwise the error names the first item without one.
   */
  lemma ParseItemsSpec(items: seq<string>)
    ensures ParseItems(items).Ok? <==> forall j :: 0 <= j < |items| ==> '.' in items[j]
    ensures ParseItems(items).Ok? ==>
      && |ParseItems(items).value| == |items|
      && forall j :: 0 <= j < |items| ==> ParseItem(items[j]) == Some(ParseItems(items).value[j])
    ensures ParseItems(items).Err? ==>
      exists j :: 0 <= j < |items| && '.' !in items[j] && (forall i :: 0 <= i < j ==> '.' in items[i])
        && ParseItems(items).error == MissingDot(items[j])
  {
    ParseAllOk(ParseItem, items);
    if ParseItems(items).Err? {
      ParseAllErr(ParseItem, items);
    }
    forall j | 0 <= j < |items| ensures ParseItem(items[j]).None? <==> '.' !in items[j] {
      ParseItemDot(items[j]);
    }
  }

  /** The attributes requested for `rel`, in order of appearance, repeats kept. */
  function AttrsOf(ps: seq<(string, string)>, rel: string): seq<string>
  {
    if |ps| == 0 then []
    else AttrsOf(ps[..|ps| - 1], rel) + if ps[|ps| - 1].0 == rel then [ps[|ps| - 1].1] else []
  }

  /** `AttrsOf` is empty exactly when no pair names the relation. */
  lemma {:induction false} AttrsOfEmpty(ps: seq<(string, string)>, rel: string)
    ensures AttrsOf(ps, rel) == [] <==> forall j :: 0 <= j < |ps| ==> ps[j].0 != rel
  {
    if |ps| > 0 {
      AttrsOfEmpty(ps[..|ps| - 1], rel);
      assert forall j :: 0 <= j < |ps| - 1 ==> ps[..|ps| - 1][j] == ps[j];
    }
  }

  /** The `attributes` dict built by the loop over the items. */
  function Grouped(ps: seq<(string, string)>): Projection
  {
    if |ps| == 0 then map[]
    else
      var g := Grouped(ps[..|ps| - 1]);
      var (rel, attr) := ps[|ps| - 1];
      if rel in g then g[rel := g[rel] + [attr]] else g[rel := [attr]]
  }

  /**
   * Every relation named in the items is a key, and only those; each maps to
   * its attributes in order of appearance, and that list is never empty.
   */
  lemma {:induction false} GroupedSpec(ps: seq<(string, string)>)
    ensures forall rel :: rel in Grouped(ps) <==> exists j :: 0 <= j < |ps| && ps[j].0 == rel
    ensures forall rel :: rel in Grouped(ps) ==> Grouped(ps)[rel] == AttrsOf(ps, rel) && Grouped(ps)[rel] != []
  {
    if |ps| > 0 {
      var init := ps[..|ps| - 1];
      GroupedSpec(init);
      assert forall j :: 0 <= j < |ps| - 1 ==> init[j] == ps[j];
      forall rel ensures rel in Grouped(ps) ==> Grouped(ps)[rel] == AttrsOf(ps, rel) && Grouped(ps)[rel] != [] {
        AttrsOfEmpty(init, rel);
      }
    }
  }

  /** The projection map of a projection line, or the error that stops its parsing. */
  function ProjectionOf(line: string): Result<Projection, QueryError>
  {
    match ParseItems(Split(line, ','))
    case Err(e) => Err(e)
    case Ok(ps) => Ok(Grouped(ps))
  }

  /**
   * A projection line gives a map exactly when each of its `,`-separated
   * items has a `.`. The map's keys are then exactly the relations named by
   * the items, and each maps to the non-empty list of its attributes, in
   * order of appearance.
   */
  lemma ProjectionSpec(line: string)
    ensures ProjectionOf(line).Ok? <==> forall item :: item in Split(line, ',') ==> '.' in item
    ensures ProjectionOf(line).Ok? ==>
      var ps := ParseItems(Split(line, ',')).value;
      && (forall rel :: rel in ProjectionOf(line).value <==> exists j :: 0 <= j < |ps| && ps[j].0 == rel)
      && (forall rel :: rel in ProjectionOf(line).value ==>
            ProjectionOf(line).value[rel] == AttrsOf(ps, rel) && AttrsOf(ps, rel) != [])
  {
    var items := Split(line, ',');
    ParseItemsSpec(items);
    if ParseItems(items).Ok? {
      GroupedSpec(ParseItems(items).value);
    }
  }

  /** Once an item is rejected, later items do not change the result. */
  lemma {:induction false} ParseAllPrefixErr(parse: string -> Option<(string, string)>, items: seq<string>, j: nat)
    requires j <= |items| && ParseAll(parse, items[..j]).Err?
    ensures ParseAll(parse, items) == ParseAll(parse, items[..j])
    decreases |items| - j
  {
    if j < |items| {
      var init := items[..|items| - 1];
      assert init[..j] == items[..j];
      ParseAllPrefixErr(parse, init, j);
    } else {
      assert items[..j] == items;
    }
  }

  /** Parses the projection line into the `attributes` dict, as the first loop of the program does. */
  method ParseProjection(line: string) returns (r: Result<Projection, QueryError>)
    ensures r == ProjectionOf(line)
  {
    var items := Split(line, ',');
    var attributes: Projection := map[];
    var i := 0;
    while i < |items|
      invariant 0 <= i <= |items|
      invariant ParseItems(items[..i]).Ok? && attributes == Grouped(ParseItems(items[..i]).value)
    {
      assert items[..i + 1][..i] == items[..i];
      var values := Split(items[i], '.');
      if |values| < 2 {
        ParseAllPrefixErr(ParseItem, items, i + 1);
        return Err(MissingDot(items[i]));
      }
      var key := Lower(Strip(values[0]));
      var value := Lower(Strip(values[1]));
      if key in attributes {
        attributes := attributes[key := attributes[key] + [value]];
      } else {
        attributes := attributes[key := [value]];
      }
      i := i + 1;
    }
    assert items[..i] == items;
    r := Ok(attributes);
  }

  // ---------------------------------------------------------------------------
  // The store scan

  /** A FROM-line item: `table.strip().lower()`. */
  function TableName(item: string): string {
    Lower(Strip(item))
  }

  /** The keys `KEYS table:*` returns. */
  function KeysWithPrefix(store: Store, table: string): set<string> {
    set k | k in store && HasPrefix(k, table + ":")
  }

  /** `ks` lists every key with prefix `table:` once, in some order. */
  ghost predicate IsScanOf(store: Store, table: string, ks: seq<string>) {
    && (forall i, j :: 0 <= i < j < |ks| ==> ks[i] != ks[j])
    && (forall k :: k in ks <==> k in KeysWithPrefix(store, table))
  }

  /** The result of `KEYS table:*`: the matching keys, in an order the model does not fix. */
  method ScanKeys(store: Store, table: string) returns (ks: seq<string>)
    ensures IsScanOf(store, table, ks)
  {
    var remaining := KeysWithPrefix(store, table);
    ks := [];
    while remaining != {}
      invariant forall i, j :: 0 <= i < j < |ks| ==> ks[i] != ks[j]
      invariant forall k :: k in ks ==> k !in remaining
      invariant forall k :: k in ks || k in remaining <==> k in KeysWithPrefix(store, table)
      decreases remaining
    {
      var k :| k in remaining;
      ks := ks + [k];
      remaining := remaining - {k};
    }
  }

  lemma {:induction false} DistinctCard(ks: seq<string>)
    requires forall i, j :: 0 <= i < j < |ks| ==> ks[i] != ks[j]
    ensures |set k | k in ks| == |ks|
  {
    if |ks| > 0 {
      var init := ks[..|ks| - 1];
      DistinctCard(init);
      assert (set k | k in ks) == (set k | k in init) + {ks[|ks| - 1]} by {
        assert ks == init + [ks[|ks| - 1]];
      }
      assert ks[|ks| - 1] !in init;
    }
  }

  /** A scan lists as many keys as the store holds under the prefix. */
  lemma ScanCount(store: Store, table: string, ks: seq<string>)
    requires IsScanOf(store, table, ks)
    ensures |ks| == |KeysWithPrefix(store, table)|
  {
    DistinctCard(ks);
    assert (set k | k in ks) == KeysWithPrefix(store, table);
  }

  // ---------------------------------------------------------------------------
  // Projecting one record

  function Quote(v: string): string {
    "'" + v + "'"
  }

  /** The printed values of one record, or the first requested attribute it lacks. */
  function RowFor(fields: Fields, attrs: seq<string>): Result<seq<string>, QueryError>
  {
    if |attrs| == 0 then Ok([])
    else
      var a := attrs[|attrs| - 1];
      match RowFor(fields, attrs[..|attrs| - 1])
      case Err(e) => Err(e)
      case Ok(vs) => if a in fields then Ok(vs + [Quote(fields[a])]) else Err(MissingAttribute(a))
  }

  /**
   * A record projects exactly when it has every requested attribute; the row
   * then holds one quoted value per requested attribute, in order; otherwise
   * the error names the first missing attribute.
   */
  lemma {:induction false} RowForSpec(fields: Fields, attrs: seq<string>)
    ensures RowFor(fields, attrs).Ok? <==> forall i :: 0 <= i < |attrs| ==> attrs[i] in fields
    ensures RowFor(fields, attrs).Ok? ==>
      && |RowFor(fields, attrs).value| == |attrs|
      && forall i :: 0 <= i < |attrs| ==> RowFor(fields, attrs).value[i] == Quote(fields[attrs[i]])
    ensures RowFor(fields, attrs).Err? ==>
      exists j :: 0 <= j < |attrs| && attrs[j] !in fields && (forall i :: 0 <= i < j ==> attrs[i] in fields)
        && RowFor(fields, attrs).error == MissingAttribute(attrs[j])
  {
    var n := |attrs|;
    if n > 0 {
      var init := attrs[..n - 1];
      RowForSpec(fields, init);
      assert forall i :: 0 <= i < n - 1 ==> init[i] == attrs[i];
      match RowFor(fields, init)
      case Err(e) => {
        var j :| 0 <= j < n - 1 && init[j] !in fields && (forall i :: 0 <= i < j ==> init[i] in fields) && e == MissingAttribute(init[j]);
        assert attrs[j] !in fields;
      }
      case Ok(vs) => {
      }
    }
  }

  lemma {:induction false} RowForPrefixErr(fields: Fields, attrs: seq<string>, j: nat)
    requires j <= |attrs| && RowFor(fields, attrs[..j]).Err?
    ensures RowFor(fields, attrs) == RowFor(fields, attrs[..j])
    decreases |attrs| - j
  {
    if j < |attrs| {
      var init := attrs[..|attrs| - 1];
      assert init[..j] == attrs[..j];
      RowForPrefixErr(fields, init, j);
    } else {
      assert attrs[..j] == attrs;
    }
  }

  /** Builds the `vals` list of one record. */
  method ProjectRecord(fields: Fields, attrs: seq<string>) returns (r: Result<seq<string>, QueryError>)
    ensures r == RowFor(fields, attrs)
  {
    var vals := [];
    var i := 0;
    while i < |attrs|
      invariant 0 <= i <= |attrs|
      invariant RowFor(fields, attrs[..i]) == Ok(vals)
    {
      assert attrs[..i + 1][..i] == attrs[..i];
      var attr := attrs[i];
      if attr !in fields {
        RowForPrefixErr(fields, attrs, i + 1);
        return Err(MissingAttribute(attr));
      }
      vals := vals + [Quote(fields[attr])];
      i := i + 1;
    }
    assert attrs[..i] == attrs;
    r := Ok(vals);
  }

  // ---------------------------------------------------------------------------
  // Projecting one relation

  /** The lines printed for the records `keys` of one relation, up to the first record that fails. */
  function TableRows(store: Store, attrs: seq<string>, keys: seq<string>): Printed
    requires forall k :: k in keys ==> k in store
  {
    if |keys| == 0 then Printed([], None)
    else
      var prev := TableRows(store, attrs, keys[..|keys| - 1]);
      if prev.err.Some? then prev
      else
        match RowFor(store[keys[|keys| - 1]], attrs)
        case Ok(vs) => Printed(prev.lines + [vs], None)
        case Err(e) => Printed(prev.lines, Some(e))
  }

  /**
   * One line per record, in scan order, each the record's projection; an
   * error stops the relation at the first record that lacks an attribute.
   */
  lemma {:induction false} TableRowsSpec(store: Store, attrs: seq<string>, keys: seq<string>)
    requires forall k :: k in keys ==> k in store
    ensures var p := TableRows(store, attrs, keys);
      && |p.lines| <= |keys|
      && (forall i :: 0 <= i < |p.lines| ==> RowFor(store[keys[i]], attrs) == Ok(p.lines[i]))
      && (p.err.None? ==> |p.lines| == |keys|)
      && (p.err.Some? ==> |p.lines| < |keys| && RowFor(store[keys[|p.lines|]], attrs) == Err(p.err.value))
  {
    if |keys| > 0 {
      var init := keys[..|keys| - 1];
      TableRowsSpec(store, attrs, init);
      assert forall i :: 0 <= i < |keys| - 1 ==> init[i] == keys[i];
    }
  }

  lemma {:induction false} TableRowsPrefixErr(store: Store, attrs: seq<string>, keys: seq<string>, j: nat)
    requires forall k :: k in keys ==> k in store
    requires j <= |keys| && TableRows(store, attrs, keys[..j]).err.Some?
    ensures TableRows(store, attrs, keys) == TableRows(store, attrs, keys[..j])
    decreases |keys| - j
  {
    if j < |keys| {
      var init := keys[..|keys| - 1];
      assert init[..j] == keys[..j];
      TableRowsPrefixErr(store, attrs, init, j);
    } else {
      assert keys[..j] == keys;
    }
  }

  /** The loop over the keys of one relation. */
  method ProjectRows(store: Store, attrs: seq<string>, keys: seq<string>) returns (rows: seq<seq<string>>, err: Option<QueryError>)
    requires forall k :: k in keys ==> k in store
    ensures Printed(rows, err) == TableRows(store, attrs, keys)
  {
    rows := [];
    var i := 0;
    while i < |keys|
      invariant 0 <= i <= |keys|
      invariant TableRows(store, attrs, keys[..i]) == Printed(rows, None)
    {
      assert keys[..i + 1][..i] == keys[..i];
      var vals := ProjectRecord(store[keys[i]], attrs);
      if vals.Err? {
        TableRowsPrefixErr(store, attrs, keys, i + 1);
        return rows, Some(vals.error);
      }
      rows := rows + [vals.value];
      i := i + 1;
    }
    assert keys[..i] == keys;
    err := None;
  }

  // ---------------------------------------------------------------------------
  // The whole query

  /** `scans[i]` is the key list the store returned for FROM item i. */
  ghost predicate ScansValid(store: Store, from: seq<string>, scans: seq<seq<string>>) {
    |scans| <= |from| && forall i :: 0 <= i < |scans| ==> IsScanOf(store, TableName(from[i]), scans[i])
  }

  /**
   * What the FROM loop prints for the first `|scans|` relations, given the
   * order each scan returned its keys in: per relation, the attribute names
   * and then its rows; it stops at the first error.
   */
  function Output(store: Store, proj: Projection, from: seq<string>, scans: seq<seq<string>>): Printed
    requires ScansValid(store, from, scans)
  {
    if |scans| == 0 then Printed([], None)
    else
      var n := |scans|;
      var prev := Output(store, proj, from, scans[..n - 1]);
      var table := TableName(from[n - 1]);
      if prev.err.Some? then prev
      else if table !in proj then Printed(prev.lines, Some(UnknownRelation(table)))
      else
        var rows := TableRows(store, proj[table], scans[n - 1]);
        Printed(prev.lines + [proj[table]] + rows.lines, rows.err)
  }

  lemma {:induction false} OutputPrefixErr(store: Store, proj: Projection, from: seq<string>, scans: seq<seq<string>>, j: nat)
    requires ScansValid(store, from, scans)
    requires j <= |scans| && Output(store, proj, from, scans[..j]).err.Some?
    ensures Output(store, proj, from, scans) == Output(store, proj, from, scans[..j])
    decreases |scans| - j
  {
    if j < |scans| {
      var init := scans[..|scans| - 1];
      assert init[..j] == scans[..j];
      OutputPrefixErr(store, proj, from, init, j);
    } else {
      assert scans[..j] == scans;
    }
  }

  /** Header line plus one line per stored record, summed over the first `n` FROM relations. */
  function ExpectedLines(store: Store, from: seq<string>, n: nat): nat
    requires n <= |from|
  {
    if n == 0 then 0 else ExpectedLines(store, from, n - 1) + 1 + |KeysWithPrefix(store, TableName(from[n - 1]))|
  }

  /** A query that ends without error named every FROM relation in its projection. */
  lemma {:induction false} OutputNamesTables(store: Store, proj: Projection, from: seq<string>, scans: seq<seq<string>>)
    requires ScansValid(store, from, scans)
    requires Output(store, proj, from, scans).err.None?
    ensures forall i :: 0 <= i < |scans| ==> TableName(from[i]) in proj
  {
    var n := |scans|;
    if n > 0 {
      var init := scans[..n - 1];
      assert ScansValid(store, from, init);
      assert Output(store, proj, from, init).err.None?;
      OutputNamesTables(store, proj, from, init);
    }
  }

  /**
   * A query that ends without error printed exactly one header line per
   * relation and one line per stored record of it.
   */
  lemma {:induction false} OutputComplete(store: Store, proj: Projection, from: seq<string>, scans: seq<seq<string>>)
    requires ScansValid(store, from, scans)
    requires Output(store, proj, from, scans).err.None?
    ensures |Output(store, proj, from, scans).lines| == ExpectedLines(store, from, |scans|)
  {
    var n := |scans|;
    if n > 0 {
      var init := scans[..n - 1];
      assert ScansValid(store, from, init);
      var prev := Output(store, proj, from, init);
      OutputNamesTables(store, proj, from, scans);
      var table := TableName(from[n - 1]);
      assert table in proj;
      var ks := scans[n - 1];
      assert forall k :: k in ks ==> k in store;
      var rows := TableRows(store, proj[table], ks);
      assert prev.err.None? && Output(store, proj, from, scans).lines == prev.lines + [proj[table]] + rows.lines;
      OutputComplete(store, proj, from, init);
      TableRowsSpec(store, proj[table], ks);
      ScanCount(store, table, ks);
    }
  }

  /** A FROM relation missing from the projection map is an error. */
  lemma {:induction false} OutputUnknownRelation(store: Store, proj: Projection, from: seq<string>, scans: seq<seq<string>>, i: nat)
    requires ScansValid(store, from, scans)
    requires i < |scans| && TableName(from[i]) !in proj
    ensures Output(store, proj, from, scans).err.Some?
  {
    if Output(store, proj, from, scans).err.None? {
      OutputNamesTables(store, proj, from, scans);
    }
  }

  /** One more FROM relation, after a prefix that printed without error. */
  lemma OutputStep(store: Store, proj: Projection, from: seq<string>, scans: seq<seq<string>>, ks: seq<string>)
    requires ScansValid(store, from, scans) && |scans| < |from|
    requires IsScanOf(store, TableName(from[|scans|]), ks)
    requires Output(store, proj, from, scans).err.None?
    ensures ScansValid(store, from, scans + [ks])
    ensures var t := TableName(from[|scans|]);
      t !in proj ==> Output(store, proj, from, scans + [ks]) == Printed(Output(store, proj, from, scans).lines, Some(UnknownRelation(t)))
    ensures var t := TableName(from[|scans|]);
      t in proj ==>
        && (forall k :: k in ks ==> k in store)
        && var rows := TableRows(store, proj[t], ks);
           Output(store, proj, from, scans + [ks]) == Printed(Output(store, proj, from, scans).lines + [proj[t]] + rows.lines, rows.err)
  {
  }

  /** The FROM loop, given the projection map. */
  method ProjectTables(store: Store, proj: Projection, from: seq<string>) returns (printed: seq<seq<string>>, err: Option<QueryError>, visited: seq<seq<string>>)
    ensures ScansValid(store, from, visited)
    ensures Printed(printed, err) == Output(store, proj, from, visited)
    ensures err.None? ==> |visited| == |from|
    ensures err.Some? ==> |visited| > 0 && Output(store, proj, from, visited[..|visited| - 1]).err.None?
  {
    printed, visited := [], [];
    var i := 0;
    while i < |from|
      invariant 0 <= i <= |from| && |visited| == i
      invariant ScansValid(store, from, visited)
      invariant Output(store, proj, from, visited) == Printed(printed, None)
    {
      var table := TableName(from[i]);
      var keys := ScanKeys(store, table);
      OutputStep(store, proj, from, visited, keys);
      assert (visited + [keys])[..i] == visited;
      visited := visited + [keys];
      if table !in proj {
        return printed, Some(UnknownRelation(table)), visited;
      }
      var attrs := proj[table];
      printed := printed + [attrs];
      var rows, rowsErr := ProjectRows(store, attrs, keys);
      printed := printed + rows;
      if rowsErr.Some? {
        return printed, rowsErr, visited;
      }
      i := i + 1;
    }
    err := None;
  }

  /**
   * The program: parse the projection line, then for every FROM relation
   * scan its keys, look up its attributes and print its records. Returns
   * what was printed, the error that ended it (if any) and the key order of
   * every scan made.
   */
  method RunQuery(lines: seq<string>, store: Store) returns (printed: seq<seq<string>>, err: Option<QueryError>, visited: seq<seq<string>>)
    ensures |lines| == 0 ==> printed == [] && visited == [] && err == Some(MissingLine(0))
    ensures |lines| > 0 && ProjectionOf(lines[0]).Err? ==>
      printed == [] && visited == [] && err == Some(ProjectionOf(lines[0]).error)
    ensures |lines| == 1 && ProjectionOf(lines[0]).Ok? ==>
      printed == [] && visited == [] && err == Some(MissingLine(1))
    ensures |lines| >= 2 && ProjectionOf(lines[0]).Ok? ==>
      var from := Split(lines[1], ',');
      var proj := ProjectionOf(lines[0]).value;
      && ScansValid(store, from, visited)
      && Printed(printed, err) == Output(store, proj, from, visited)
      && (err.None? ==> |visited| == |from|)
      && (err.Some? ==> |visited| > 0 && Output(store, proj, from, visited[..|visited| - 1]).err.None?)
  {
    if |lines| == 0 {
      return [], Some(MissingLine(0)), [];
    }
    var parsed := ParseProjection(lines[0]);
    if parsed.Err? {
      return [], Some(parsed.error), [];
    }
    if |lines| < 2 {
      return [], Some(MissingLine(1)), [];
    }
    printed, err, visited := ProjectTables(store, parsed.value, Split(lines[1], ','));
  }
}
