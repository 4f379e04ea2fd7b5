/**
 * The import program: a line-driven reader of a relational info file that
 * turns every accepted data row into one store hash.
 *
 * File layout: the first non-blank line is the table name, the following
 * lines up to a lone `;` are attribute names, and every line after that is a
 * `;`-separated data row. Writing the hashes to the store is not modelled;
 * the reader's output is the sequence of (key, field map) pairs it would
 * send.
 */
module InsertRelations {
  import opened Strings

  /** One store hash: `table:id` and its attribute -> value map. */
  datatype HashRecord = HashRecord(key: string, fields: map<string, string>)

  /** What reading one line did. `ArityMismatch` is the row the program rejects with a message. */
  datatype LineOutcome =
    | Blank
    | NameSet
    | AttributeAdded
    | SeparatorSet
    | ArityMismatch(expected: nat, found: nat)
    | Record(rec: HashRecord)

  /** The four variables the reading loop updates. */
  datatype ParserState = ParserState(
    tableName: string,
    attributes: seq<string>,
    separatorFound: bool,
    tableNameFound: bool)

  const Initial := ParserState("", [], false, false)

  datatype StepResult = StepResult(state: ParserState, outcome: LineOutcome)

  datatype RunResult = RunResult(state: ParserState, records: seq<HashRecord>)

  /** The phases are entered in order: no separator before a table name. */
  predicate Inv(s: ParserState) {
    s.separatorFound ==> s.tableNameFound
  }

  /** `add_key_value`: stores the stripped value under `key`, overwriting any earlier one. */
  function AddKeyValue(h: map<string, string>, key: string, value: string): (r: map<string, string>)
    ensures forall k :: k in r <==> k in h || k == key
    ensures r[key] == Strip(value)
    ensures forall k :: k in h && k != key ==> r[k] == h[k]
  {
    h[key := Strip(value)]
  }

  /** The hash of one data row: `add_key_value` applied pairwise, starting from an empty map. */
  function HashOf(attrs: seq<string>, values: seq<string>): map<string, string>
    requires |attrs| == |values|
  {
    if |attrs| == 0 then map[]
    else AddKeyValue(HashOf(attrs[..|attrs| - 1], values[..|values| - 1]), attrs[|attrs| - 1], values[|values| - 1])
  }

  /** The hash has exactly the attribute names as keys: nothing from an earlier row. */
  lemma {:induction false} HashOfKeys(attrs: seq<string>, values: seq<string>)
    requires |attrs| == |values|
    ensures forall k :: k in HashOf(attrs, values) <==> k in attrs
  {
    var n := |attrs|;
    if n > 0 {
      var pa, pv := attrs[..n - 1], values[..n - 1];
      HashOfKeys(pa, pv);
      assert attrs == pa + [attrs[n - 1]];
    }
  }

  /** Each attribute name maps to the stripped value at the position of its last occurrence. */
  lemma {:induction false} HashOfValues(attrs: seq<string>, values: seq<string>)
    requires |attrs| == |values|
    ensures forall j :: 0 <= j < |attrs| && (forall j' :: j < j' < |attrs| ==> attrs[j'] != attrs[j]) ==>
      attrs[j] in HashOf(attrs, values) && HashOf(attrs, values)[attrs[j]] == Strip(values[j])
  {
    var n := |attrs|;
    if n > 0 {
      var pa, pv := attrs[..n - 1], values[..n - 1];
      HashOfValues(pa, pv);
      var h := HashOf(attrs, values);
      assert h == AddKeyValue(HashOf(pa, pv), attrs[n - 1], values[n - 1]);
      forall j | 0 <= j < n && (forall j' :: j < j' < n ==> attrs[j'] != attrs[j])
        ensures attrs[j] in h && h[attrs[j]] == Strip(values[j])
      {
        if j < n - 1 {
          assert attrs[j] != attrs[n - 1];
          assert pa[j] == attrs[j] && pv[j] == values[j];
          assert forall j' :: j < j' < n - 1 ==> pa[j'] != pa[j];
        }
      }
    }
  }

  /**
   * The hash has exactly the attribute names as keys (nothing from an earlier
   * row), and each name maps to the stripped value at the position of its
   * last occurrence.
   */
  lemma HashOfFields(attrs: seq<string>, values: seq<string>)
    requires |attrs| == |values|
    ensures forall k :: k in HashOf(attrs, values) <==> k in attrs
    ensures forall j :: 0 <= j < |attrs| && (forall j' :: j < j' < |attrs| ==> attrs[j'] != attrs[j]) ==>
      HashOf(attrs, values)[attrs[j]] == Strip(values[j])
  {
    HashOfKeys(attrs, values);
    HashOfValues(attrs, values);
  }

  /** A data line: `line.strip().split(';')`. */
  function Values(line: string): seq<string> {
    Split(Strip(line), ';')
  }

  /** The record built for an accepted data line. */
  function RowRecord(s: ParserState, values: seq<string>): HashRecord
    requires |values| == |s.attributes| && |values| > 0
  {
    HashRecord(s.tableName + ":" + Normalise(values[0]), HashOf(s.attributes, values))
  }

  /** A data line is accepted when it is non-blank and has one value per attribute. */
  predicate Accepts(s: ParserState, line: string) {
    Strip(line) != "" && |Values(line)| == |s.attributes|
  }

  /** One iteration of the reading loop. */
  function Step(s: ParserState, line: string): StepResult
  {
    var stripped := Strip(line);
    if stripped == "" then StepResult(s, Blank)
    else if !s.separatorFound then
      if !s.tableNameFound then
        StepResult(s.(tableName := Normalise(line), tableNameFound := true), NameSet)
      else if stripped == ";" then
        StepResult(s.(separatorFound := true), SeparatorSet)
      else
        StepResult(s.(attributes := s.attributes + [Normalise(line)]), AttributeAdded)
    else
      var values := Split(stripped, ';');
      if |s.attributes| != |values| then
        StepResult(s, ArityMismatch(|s.attributes|, |values|))
      else
        StepResult(s, Record(RowRecord(s, values)))
  }

  /**
   * What one line does, phase by phase: blank lines are ignored; the first
   * non-blank line names the table; until a lone `;` every line adds an
   * attribute; after it the state is frozen and each line is a data row that
   * is either rejected for its arity or turned into a record keyed
   * `table:id` whose fields are exactly the attributes.
   */
  lemma StepSpec(s: ParserState, line: string)
    ensures var r := Step(s, line);
      && (Inv(s) ==> Inv(r.state))
      && (Strip(line) == "" ==> r == StepResult(s, Blank))
      && (s.separatorFound ==> r.state == s)
      && (!s.tableNameFound && !s.separatorFound && Strip(line) != "" ==>
            && r.state == s.(tableName := Normalise(line), tableNameFound := true)
            && ' ' !in r.state.tableName && !r.outcome.Record?)
      && (s.tableNameFound && !s.separatorFound && Strip(line) == ";" ==>
            r.state == s.(separatorFound := true) && r.outcome == SeparatorSet)
      && (s.tableNameFound && !s.separatorFound && Strip(line) != "" && Strip(line) != ";" ==>
            r.state == s.(attributes := s.attributes + [Normalise(line)]) && r.outcome == AttributeAdded)
      && (r.outcome.Record? <==> s.separatorFound && Accepts(s, line))
      && (s.separatorFound && Strip(line) != "" && !Accepts(s, line) ==>
            r.outcome == ArityMismatch(|s.attributes|, |Values(line)|))
      && (r.outcome.Record? ==>
            && r.outcome.rec.key == s.tableName + ":" + Normalise(Values(line)[0])
            && (forall k :: k in r.outcome.rec.fields <==> k in s.attributes))
  {
    NormaliseShape(line);
    if s.separatorFound && Accepts(s, line) {
      HashOfFields(s.attributes, Values(line));
    }
  }

  /** A left fold of a line-step function over the lines, collecting the records it yields. */
  function Fold(step: (ParserState, string) -> StepResult, s: ParserState, lines: seq<string>): RunResult
  {
    if |lines| == 0 then RunResult(s, [])
    else
      var prev := Fold(step, s, lines[..|lines| - 1]);
      var r := step(prev.state, lines[|lines| - 1]);
      RunResult(r.state, prev.records + if r.outcome.Record? then [r.outcome.rec] else [])
  }

  /** Folding over `a + b` is folding over `a`, then over `b` from where `a` left off. */
  lemma {:induction false} FoldAppend(step: (ParserState, string) -> StepResult, s: ParserState, a: seq<string>, b: seq<string>)
    ensures var mid := Fold(step, s, a);
      Fold(step, s, a + b) == RunResult(Fold(step, mid.state, b).state, mid.records + Fold(step, mid.state, b).records)
    decreases |b|
  {
    if |b| == 0 {
      assert a + b == a;
    } else {
      var n := |b|;
      var ab := a + b;
      assert ab[..|ab| - 1] == a + b[..n - 1];
      assert ab[|ab| - 1] == b[n - 1];
      FoldAppend(step, s, a, b[..n - 1]);
    }
  }

  /** The reading loop over a whole file: the final state and the records it would send, in order. */
  function Run(s: ParserState, lines: seq<string>): RunResult
  {
    Fold(Step, s, lines)
  }

  /** Reading `a + b` is reading `a`, then reading `b` from where `a` left off. */
  lemma RunAppend(s: ParserState, a: seq<string>, b: seq<string>)
    ensures var mid := Run(s, a);
      Run(s, a + b) == RunResult(Run(mid.state, b).state, mid.records + Run(mid.state, b).records)
  {
    FoldAppend(Step, s, a, b);
  }

  /** Reading one more line is one more step. */
  lemma RunSnoc(s: ParserState, lines: seq<string>, line: string)
    ensures var prev := Run(s, lines);
      var r := Step(prev.state, line);
      Run(s, lines + [line]) == RunResult(r.state, prev.records + if r.outcome.Record? then [r.outcome.rec] else [])
  {
  }

  /** The records a data-phase reader emits: one per accepted line, in file order. */
  function AcceptedRows(s: ParserState, lines: seq<string>): seq<HashRecord>
  {
    if |lines| == 0 then []
    else
      var line := lines[|lines| - 1];
      AcceptedRows(s, lines[..|lines| - 1])
        + if Accepts(s, line) && |s.attributes| > 0 then [RowRecord(s, Values(line))] else []
  }

  /**
   * Once the separator has been seen nothing changes the state any more, and
   * exactly the correct-arity data lines produce records, in order.
   */
  lemma {:induction false} RunDataPhase(s: ParserState, lines: seq<string>)
    requires s.separatorFound
    ensures Run(s, lines) == RunResult(s, AcceptedRows(s, lines))
  {
    if |lines| > 0 {
      RunDataPhase(s, lines[..|lines| - 1]);
    }
  }

  /** No record is produced before the separator line. */
  lemma {:induction false} NoRecordsBeforeSeparator(s: ParserState, lines: seq<string>)
    requires !Run(s, lines).state.separatorFound
    ensures Run(s, lines).records == []
  {
    if |lines| > 0 {
      var prev := Run(s, lines[..|lines| - 1]);
      assert !prev.state.separatorFound;
      NoRecordsBeforeSeparator(s, lines[..|lines| - 1]);
    }
  }

  /**
   * Every record of a file is keyed under the table name the file declared
   * and carries exactly the declared attributes.
   */
  lemma {:induction false} RecordsMatchSchema(s: ParserState, lines: seq<string>)
    requires !s.separatorFound
    ensures var r := Run(s, lines);
      forall rec :: rec in r.records ==>
        HasPrefix(rec.key, r.state.tableName + ":") && (forall k :: k in rec.fields <==> k in r.state.attributes)
  {
    if |lines| > 0 {
      var init, last := lines[..|lines| - 1], lines[|lines| - 1];
      assert lines == init + [last];
      RunSnoc(s, init, last);
      var prev := Run(s, init);
      var step := Step(prev.state, last);
      StepSpec(prev.state, last);
      RecordsMatchSchema(s, init);
      if !prev.state.separatorFound {
        NoRecordsBeforeSeparator(s, init);
        assert Run(s, lines).records == [];
      } else if step.outcome.Record? {
        var key := step.outcome.rec.key;
        var p := prev.state.tableName + ":";
        assert key[..|p|] == p;
      }
    }
  }

  function NormaliseAll(names: seq<string>): (r: seq<string>)
    ensures |r| == |names|
    ensures forall i :: 0 <= i < |names| ==> r[i] == Normalise(names[i])
  {
    if |names| == 0 then [] else NormaliseAll(names[..|names| - 1]) + [Normalise(names[|names| - 1])]
  }

  /** Attribute lines are collected, normalised, in file order. */
  lemma {:induction false} RunAttributes(s: ParserState, attrLines: seq<string>)
    requires s.tableNameFound && !s.separatorFound
    requires forall i :: 0 <= i < |attrLines| ==> Strip(attrLines[i]) != "" && Strip(attrLines[i]) != ";"
    ensures Run(s, attrLines) == RunResult(s.(attributes := s.attributes + NormaliseAll(attrLines)), [])
  {
    if |attrLines| > 0 {
      var n := |attrLines|;
      RunAttributes(s, attrLines[..n - 1]);
      assert NormaliseAll(attrLines) == NormaliseAll(attrLines[..n - 1]) + [Normalise(attrLines[n - 1])];
    }
  }

  /** A lone `;` after the table name ends the attribute list. */
  lemma SeparatorLine(s: ParserState)
    requires s.tableNameFound && !s.separatorFound
    ensures Step(s, ";") == StepResult(s.(separatorFound := true), SeparatorSet)
  {
  }

  /** The table-name line of a file: the name is normalised, no record is produced. */
  lemma NameLine(name: string)
    requires Strip(name) != ""
    ensures Run(Initial, [name]) == RunResult(Initial.(tableName := Normalise(name), tableNameFound := true), [])
  {
    RunSnoc(Initial, [], name);
    assert [] + [name] == [name];
  }

  /** Two record-free stretches of lines make one. */
  lemma ComposeQuiet(step: (ParserState, string) -> StepResult, s: ParserState, a: seq<string>, b: seq<string>, mid: ParserState, last: ParserState)
    requires Fold(step, s, a) == RunResult(mid, []) && Fold(step, mid, b) == RunResult(last, [])
    ensures Fold(step, s, a + b) == RunResult(last, [])
  {
    FoldAppend(step, s, a, b);
  }

  /** The table name and the attribute lines before the separator. */
  lemma NameAndAttributes(name: string, attrLines: seq<string>)
    requires Strip(name) != ""
    requires forall i :: 0 <= i < |attrLines| ==> Strip(attrLines[i]) != "" && Strip(attrLines[i]) != ";"
    ensures Run(Initial, [name] + attrLines) ==
      RunResult(ParserState(Normalise(name), NormaliseAll(attrLines), false, true), [])
  {
    var afterName := Initial.(tableName := Normalise(name), tableNameFound := true);
    NameLine(name);
    RunAttributes(afterName, attrLines);
    assert afterName.(attributes := afterName.attributes + NormaliseAll(attrLines))
      == ParserState(Normalise(name), NormaliseAll(attrLines), false, true);
    ComposeQuiet(Step, Initial, [name], attrLines, afterName, ParserState(Normalise(name), NormaliseAll(attrLines), false, true));
  }

  /**
   * A well-formed header: a table name line, attribute lines and a lone `;`
   * give the schema (normalised name, normalised attributes in order) and no
   * record.
   */
  lemma HeaderSchema(name: string, attrLines: seq<string>)
    requires Strip(name) != ""
    requires forall i :: 0 <= i < |attrLines| ==> Strip(attrLines[i]) != "" && Strip(attrLines[i]) != ";"
    ensures Run(Initial, [name] + attrLines + [";"]) ==
      RunResult(ParserState(Normalise(name), NormaliseAll(attrLines), true, true), [])
  {
    var header := [name] + attrLines;
    NameAndAttributes(name, attrLines);
    var schema := ParserState(Normalise(name), NormaliseAll(attrLines), false, true);
    SeparatorLine(schema);
    RunSnoc(Initial, header, ";");
    assert Run(Initial, header + [";"]) == RunResult(schema.(separatorFound := true), [] + []);
  }

  /** A whole file: a well-formed header followed by data lines gives exactly the accepted rows. */
  lemma FileRecords(name: string, attrLines: seq<string>, data: seq<string>)
    requires Strip(name) != ""
    requires forall i :: 0 <= i < |attrLines| ==> Strip(attrLines[i]) != "" && Strip(attrLines[i]) != ";"
    ensures var schema := ParserState(Normalise(name), NormaliseAll(attrLines), true, true);
      Run(Initial, [name] + attrLines + [";"] + data).records == AcceptedRows(schema, data)
  {
    var schema := ParserState(Normalise(name), NormaliseAll(attrLines), true, true);
    HeaderSchema(name, attrLines);
    RunAppend(Initial, [name] + attrLines + [";"], data);
    RunDataPhase(schema, data);
  }

  /** Builds the hash of one accepted row, pair by pair, as `map(add_key_value, ...)` does. */
  method BuildHash(attrs: seq<string>, values: seq<string>) returns (h: map<string, string>)
    requires |attrs| == |values|
    ensures h == HashOf(attrs, values)
  {
    h := map[];
    var i := 0;
    while i < |attrs|
      invariant 0 <= i <= |attrs|
      invariant h == HashOf(attrs[..i], values[..i])
    {
      assert attrs[..i + 1][..i] == attrs[..i] && values[..i + 1][..i] == values[..i];
      h := AddKeyValue(h, attrs[i], values[i]);
      i := i + 1;
    }
    assert attrs[..i] == attrs && values[..i] == values;
  }

  /** The reader of one relational info file; its fields are the loop's variables. */
  class RelationParser {
    var tableName: string
    var attributes: seq<string>
    var separatorFound: bool
    var tableNameFound: bool

    function State(): ParserState
      reads this
    {
      ParserState(tableName, attributes, separatorFound, tableNameFound)
    }

    constructor ()
      ensures State() == Initial
    {
      tableName := "";
      attributes := [];
      separatorFound := false;
      tableNameFound := false;
    }

    /** Reads one line of the file. */
    method ProcessLine(line: string) returns (outcome: LineOutcome)
      modifies this
      ensures StepResult(State(), outcome) == Step(old(State()), line)
    {
      var stripped := Strip(line);
      if stripped == "" {
        return Blank;
      }
      if !separatorFound {
        if !tableNameFound {
          tableName := Normalise(line);
          tableNameFound := true;
          outcome := NameSet;
        } else if stripped == ";" {
          separatorFound := true;
          outcome := SeparatorSet;
        } else {
          attributes := attributes + [Normalise(line)];
          outcome := AttributeAdded;
        }
      } else {
        var values := Split(stripped, ';');
        if |attributes| != |values| {
          outcome := ArityMismatch(|attributes|, |values|);
        } else {
          var key := tableName + ":" + Normalise(values[0]);
          var fields := BuildHash(attributes, values);
          outcome := Record(HashRecord(key, fields));
        }
      }
    }
  }

  /** The reading loop over the lines of one file; returns the hashes to be stored, in order. */
  method ParseFile(lines: seq<string>) returns (records: seq<HashRecord>)
    ensures records == Run(Initial, lines).records
  {
    var parser := new RelationParser();
    records := [];
    var i := 0;
    while i < |lines|
      invariant 0 <= i <= |lines|
      invariant RunResult(parser.State(), records) == Run(Initial, lines[..i])
    {
      assert lines[..i + 1][..i] == lines[..i];
      var outcome := parser.ProcessLine(lines[i]);
      if outcome.Record? {
        records := records + [outcome.rec];
      }
      i := i + 1;
    }
    assert lines[..i] == lines;
  }
}
