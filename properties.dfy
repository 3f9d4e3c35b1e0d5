/**
 * What the message interpreter guarantees, one message at a time and over a
 * whole run.
 */
module Properties {
  import opened Wrappers
  import opened Json
  import opened Messages
  import opened Staging
  import opened Protocol

  // ---------------------------------------------------------------------------
  // One message

  /** Lines that are not well-formed messages end the run. */
  lemma MalformedLinesAbort(c: Config, m: Message, validate: Validate)
    requires Inv(c)
    ensures m.Undecodable? ==> Next(c, m, validate).1 == Fail(ParseError(m.line))
    ensures m.Decoded? && m.msgType.None? ==> Next(c, m, validate).1 == Fail(MissingType)
    ensures m.Decoded? && m.msgType.Some? && !IsRecord(m) && !IsState(m) && !IsSchema(m) && !IsActivateVersion(m)
      ==> Next(c, m, validate).1 == Fail(UnknownType(m.msgType.value))
    ensures (IsRecord(m) || IsSchema(m)) && m.stream.None? ==> Next(c, m, validate).1 == Fail(MissingStream)
    ensures IsSchema(m) && m.stream.Some? && m.schema.None? ==> Next(c, m, validate).1 == Fail(MissingSchema)
    ensures IsSchema(m) && m.stream.Some? && m.schema.Some? && !m.schema.value.JObj?
      ==> Next(c, m, validate).1 == Fail(SchemaNotMapping)
    ensures IsSchema(m) && m.stream.Some? && m.schema.Some? && m.schema.value.JObj? && m.keyProperties.None?
      ==> Next(c, m, validate).1 == Fail(MissingKeyProperties)
  {
  }

  /** A RECORD for a stream without a stored schema ends the run, whatever the record holds. */
  lemma RecordBeforeSchemaAborts(c: Config, m: Message, validate: Validate)
    requires Inv(c) && IsRecord(m) && m.stream.Some? && m.stream.value !in c.schemas
    ensures Next(c, m, validate).1 == Fail(RecordBeforeSchema(m.stream.value))
    ensures Next(c, m, validate).0 == c
  {
  }

  /**
   * A complete SCHEMA whose schema is a dict stores (or overwrites) the schema, a validator built
   * from it and the key properties of its stream, and touches nothing else.
   */
  lemma SchemaOverwrites(c: Config, m: Message, validate: Validate)
    requires Inv(c) && IsSchema(m) && m.stream.Some? && m.schema.Some? && m.schema.value.JObj? && m.keyProperties.Some?
    ensures var (c', o) := Next(c, m, validate);
      var s := m.stream.value;
      && o == Pass
      && c'.schemas == c.schemas[s := m.schema.value]
      && c'.validators == c.validators[s := Draft4(m.schema.value)]
      && c'.keyProperties == c.keyProperties[s := m.keyProperties.value]
      && c'.state == c.state && c'.filename == c.filename && c'.staging == c.staging
      && c'.errorLog == c.errorLog
  {
  }

  /**
   * Validation never stops a record: whether the record conforms or a
   * ValidationError is raised, the same row is staged. Only the "is not a
   * multiple of 0.01" message is logged. Any other exception from the
   * validator ends the run.
   */
  lemma ValidationErrorsSwallowed(c: Config, m: Message, validate: Validate, fs: Fields)
    requires Inv(c) && IsRecord(m) && m.stream.Some? && m.stream.value in c.schemas
    requires m.record == Some(JObj(fs))
    ensures var s := m.stream.value;
      var check := validate(c.validators[s], JObj(fs));
      var (c', o) := Next(c, m, validate);
      && (check.Raised? <==> o == Fail(ValidatorRaised))
      && (!check.Raised? ==> o == Pass && c'.staging == Some(AppendRecord(c.staging, CsvName(s), fs)))
      && (check.Conforms? ==> c'.errorLog == c.errorLog)
      && (check.ValidationError? ==>
            c'.errorLog == c.errorLog + (if Contains(check.message, PrecisionMessage)
                                          then ["Validation error:" + check.message] else []))
  {
  }

  /**
   * A RECORD for stream `s` that goes through appends exactly one data row,
   * in the record's own key order, to `s.csv`; a header of the record's keys
   * comes first only when the file did not exist. No other file changes,
   * `filename` becomes `s.csv` and the checkpoint is forgotten.
   */
  lemma RecordAppendsOneRow(c: Config, m: Message, validate: Validate)
    requires Inv(c) && IsRecord(m) && Next(c, m, validate).1.Pass?
    ensures m.stream.Some? && m.record.Some? && m.record.value.JObj?
    ensures var (c', _) := Next(c, m, validate);
      var file, fs := CsvName(m.stream.value), m.record.value.fields;
      var before, after := Files(c.staging), Files(c'.staging);
      && c'.staging.Some?
      && after.Keys == before.Keys + {file}
      && (forall f :: f in before && f != file ==> after[f] == before[f])
      && (file in before ==> after[file] == before[file] + [Data(ValuesOf(fs))])
      && (file !in before ==> after[file] == [Header(KeysOf(fs)), Data(ValuesOf(fs))])
      && c'.filename == Some(file)
      && c'.state == None
      && c'.schemas == c.schemas && c'.validators == c.validators && c'.keyProperties == c.keyProperties
  {
    var (c', _) := Next(c, m, validate);
    var file, fs := CsvName(m.stream.value), m.record.value.fields;
    var before := Files(c.staging);
    if file !in before {
      assert [Header(KeysOf(fs))] + [Data(ValuesOf(fs))] == [Header(KeysOf(fs)), Data(ValuesOf(fs))];
    }
  }

  /**
   * A STATE that goes through becomes the checkpoint. The staging directory
   * is left as it is when a stream is still syncing or the directory does
   * not exist; otherwise it is left empty.
   */
  lemma StateFlushRule(c: Config, m: Message, validate: Validate)
    requires Inv(c) && IsState(m) && Next(c, m, validate).1.Pass?
    ensures var c' := Next(c, m, validate).0;
      && c'.state == m.value
      && c'.schemas == c.schemas && c'.validators == c.validators && c'.keyProperties == c.keyProperties
      && c'.filename == c.filename && c'.errorLog == c.errorLog
      && (!AsksFlush(m) || c.staging.None? ==> c'.staging == c.staging)
      && (AsksFlush(m) && c.staging.Some? ==> c'.staging == Some(map[]))
  {
  }

  /** Repeating a STATE that went through changes nothing and uploads nothing. */
  lemma SecondStateIsNoOp(c: Config, m: Message, validate: Validate)
    requires Inv(c) && IsState(m) && Next(c, m, validate).1.Pass?
    ensures var c' := Next(c, m, validate).0;
      Next(c', m, validate) == (c', Pass) && !Uploads(c', m)
  {
  }

  /** Only a RECORD sets `filename`, to the staging file of its stream. */
  lemma NextFilename(c: Config, m: Message, validate: Validate)
    requires Inv(c)
    ensures var c' := Next(c, m, validate).0;
      c'.filename == c.filename || (IsRecord(m) && m.stream.Some? && c'.filename == Some(CsvName(m.stream.value)))
  {
  }

  /** Only a SCHEMA adds a stream to the schema table, and only its own. */
  lemma NextSchemas(c: Config, m: Message, validate: Validate)
    requires Inv(c)
    ensures var c' := Next(c, m, validate).0;
      c'.schemas.Keys <= c.schemas.Keys + (if IsSchema(m) && m.stream.Some? then {m.stream.value} else {})
  {
  }

  /** A RECORD that goes through had its stream's schema stored already. */
  lemma RecordNeedsSchema(c: Config, m: Message, validate: Validate)
    requires Inv(c) && IsRecord(m) && Next(c, m, validate).1.Pass?
    ensures m.stream.Some? && m.stream.value in c.schemas
  {
  }

  // ---------------------------------------------------------------------------
  // A whole run

  /** `Run` on a non-empty sequence: the first message, then the rest unless it raised. */
  lemma RunUnfold(c: Config, ms: seq<Message>, validate: Validate)
    requires Inv(c) && ms != []
    ensures var r := Next(c, ms[0], validate);
      Run(c, ms, validate) == if r.1.Fail? then r else Run(r.0, ms[1..], validate)
  {
  }

  /** A run that goes through leaves the checkpoint the message sequence determines. */
  lemma {:induction false} RunCheckpoint(c: Config, ms: seq<Message>, validate: Validate)
    requires Inv(c) && Run(c, ms, validate).1.Pass?
    ensures Run(c, ms, validate).0.state == CheckpointAfter(c.state, ms)
    decreases |ms|
  {
    if ms != [] {
      var (c1, o) := Next(c, ms[0], validate);
      assert c1.state == CheckpointEffect(c.state, ms[0]);
      RunCheckpoint(c1, ms[1..], validate);
    }
  }

  /**
   * `persist_lines` returns the value of the last STATE when no RECORD
   * follows it, and None otherwise.
   */
  lemma RunReturnsLastCheckpoint(staging: Option<Dir>, ms: seq<Message>, validate: Validate)
    requires Run(Initial(staging), ms, validate).1.Pass?
    ensures Run(Initial(staging), ms, validate).0.state == LastCheckpoint(ms)
  {
    RunCheckpoint(Initial(staging), ms, validate);
  }

  /** In a run that goes through, every RECORD's stream had a schema before it. */
  lemma {:induction false} RecordsFollowSchemas(c: Config, ms: seq<Message>, validate: Validate, i: nat)
    requires Inv(c) && Run(c, ms, validate).1.Pass?
    requires i < |ms| && IsRecord(ms[i])
    ensures ms[i].stream.Some?
    ensures || ms[i].stream.value in c.schemas
            || exists j :: 0 <= j < i && IsSchema(ms[j]) && ms[j].stream == ms[i].stream
    decreases i
  {
    var (c1, o) := Next(c, ms[0], validate);
    if i == 0 {
      RecordNeedsSchema(c, ms[0], validate);
    } else {
      assert ms[1..][i - 1] == ms[i];
      RecordsFollowSchemas(c1, ms[1..], validate, i - 1);
      NextSchemas(c, ms[0], validate);
      if exists j :: 0 <= j < i - 1 && IsSchema(ms[1..][j]) && ms[1..][j].stream == ms[i].stream {
        var j :| 0 <= j < i - 1 && IsSchema(ms[1..][j]) && ms[1..][j].stream == ms[i].stream;
        assert ms[j + 1] == ms[1..][j];
      }
    }
  }

  /** In a run that goes through, every STATE carries a mapping as its value. */
  lemma {:induction false} StatesAreMappings(c: Config, ms: seq<Message>, validate: Validate, i: nat)
    requires Inv(c) && Run(c, ms, validate).1.Pass?
    requires i < |ms| && IsState(ms[i])
    ensures ms[i].value.Some? && ms[i].value.value.JObj?
    decreases i
  {
    var (c1, o) := Next(c, ms[0], validate);
    if i > 0 {
      assert ms[1..][i - 1] == ms[i];
      StatesAreMappings(c1, ms[1..], validate, i - 1);
    }
  }

  /**
   * What `emit_state` prints after a run that goes through: nothing exactly
   * when a RECORD follows every STATE, and otherwise the value of the STATE
   * `i` that no RECORD and no other STATE follows.
   */
  lemma EmittedCheckpoint(staging: Option<Dir>, ms: seq<Message>, validate: Validate) returns (i: nat)
    requires Run(Initial(staging), ms, validate).1.Pass?
    ensures EmitState(LastCheckpoint(ms)) == [] <==>
            forall k :: 0 <= k < |ms| && IsState(ms[k]) ==> exists j :: k < j < |ms| && IsRecord(ms[j])
    ensures EmitState(LastCheckpoint(ms)) != [] ==>
            && i < |ms| && IsState(ms[i]) && ms[i].value.Some?
            && EmitState(LastCheckpoint(ms)) == [ms[i].value.value]
            && forall j :: i < j < |ms| ==> Neutral(ms[j])
  {
    forall k | 0 <= k < |ms| && IsState(ms[k]) ensures ms[k].value.Some? && ms[k].value.value.JObj? {
      StatesAreMappings(Initial(staging), ms, validate, k);
    }
    if LastCheckpoint(ms).Some? {
      i := ReturnedIsLastState(ms);
    } else {
      i := 0;
      if !forall k :: 0 <= k < |ms| && IsState(ms[k]) ==> exists j :: k < j < |ms| && IsRecord(ms[j]) {
        var k :| 0 <= k < |ms| && IsState(ms[k]) && !exists j :: k < j < |ms| && IsRecord(ms[j]);
        StateWithoutLaterRecord(ms, k);
      }
    }
  }

  /** A RECORD whose stream no earlier SCHEMA declared makes the run fail. */
  lemma RecordWithoutSchemaFails(staging: Option<Dir>, ms: seq<Message>, validate: Validate, i: nat)
    requires i < |ms| && IsRecord(ms[i]) && ms[i].stream.Some?
    requires forall j :: 0 <= j < i ==> !(IsSchema(ms[j]) && ms[j].stream == ms[i].stream)
    ensures Run(Initial(staging), ms, validate).1.Fail?
  {
    if Run(Initial(staging), ms, validate).1.Pass? {
      RecordsFollowSchemas(Initial(staging), ms, validate, i);
      assert false;
    }
  }

  /** The staging file a message writes to and the record it writes, when it is a RECORD. */
  function Written(m: Message): Option<(string, Fields)> {
    if IsRecord(m) && m.stream.Some? && m.record.Some? && m.record.value.JObj?
    then Some((CsvName(m.stream.value), m.record.value.fields))
    else None
  }

  /** The data rows the RECORDs of `ms` write to `file`, in arrival order. */
  function DataRows(ms: seq<Message>, file: string): seq<Row>
    decreases |ms|
  {
    if ms == [] then []
    else
      var w := Written(ms[0]);
      (if w.Some? && w.value.0 == file then [Data(ValuesOf(w.value.1))] else []) + DataRows(ms[1..], file)
  }

  /** The record the first RECORD of `ms` for `file` carries. */
  function FirstRecord(ms: seq<Message>, file: string): Option<Fields>
    decreases |ms|
  {
    if ms == [] then None
    else
      var w := Written(ms[0]);
      if w.Some? && w.value.0 == file then Some(w.value.1) else FirstRecord(ms[1..], file)
  }

  /** Messages other than RECORD and a flush-asking STATE leave the staging directory alone. */
  lemma NextKeepsStaging(c: Config, m: Message, validate: Validate)
    requires Inv(c) && Next(c, m, validate).1.Pass? && !IsRecord(m) && !AsksFlush(m)
    ensures Next(c, m, validate).0.staging == c.staging
  {
  }

  /**
   * File `file` goes from directory `before` to directory `after` by gaining
   * `rows`: appended when it existed, after a header of the keys of `first`
   * when it is new; it stays absent when no record was written to it.
   */
  ghost predicate Gained(before: Dir, after: Dir, file: string, rows: seq<Row>, first: Option<Fields>) {
    && (file in before ==> file in after && after[file] == before[file] + rows)
    && (file !in before && first.Some? ==> file in after && after[file] == [Header(KeysOf(first.value))] + rows)
    && (file !in before && first.None? ==> file !in after)
  }

  /**
   * Between flushes a staging file holds what it held before, or a header of
   * the first record's keys when it is new, followed by one data row per
   * RECORD for its stream, in arrival order; a file no RECORD wrote to does
   * not appear.
   */
  lemma {:induction false} RowsInArrivalOrder(c: Config, ms: seq<Message>, validate: Validate, file: string)
    requires Inv(c) && Run(c, ms, validate).1.Pass?
    requires forall i :: 0 <= i < |ms| ==> !AsksFlush(ms[i])
    ensures Gained(Files(c.staging), Files(Run(c, ms, validate).0.staging), file, DataRows(ms, file), FirstRecord(ms, file))
    decreases |ms|
  {
    if ms != [] {
      var m := ms[0];
      var (c1, o) := Next(c, m, validate);
      assert forall i :: 0 <= i < |ms[1..]| ==> !AsksFlush(ms[1..][i]) by {
        forall i | 0 <= i < |ms[1..]| ensures !AsksFlush(ms[1..][i]) {
          assert ms[1..][i] == ms[i + 1];
        }
      }
      RunUnfold(c, ms, validate);
      RowsInArrivalOrder(c1, ms[1..], validate, file);
      StagedAfterStep(c, m, validate, file);
      GainedStep(Files(c.staging), Files(c1.staging), Files(Run(c, ms, validate).0.staging), file,
                 Written(m), DataRows(ms[1..], file), FirstRecord(ms[1..], file));
    }
  }

  /** Gaining one row (or none) and then `rows` is gaining both, in that order. */
  lemma GainedStep(before: Dir, mid: Dir, after: Dir, file: string, w: Option<(string, Fields)>,
                   rows: seq<Row>, first: Option<Fields>)
    requires if w.Some? && w.value.0 == file then
               && file in mid
               && mid[file] == (if file in before then before[file] else [Header(KeysOf(w.value.1))]) + [Data(ValuesOf(w.value.1))]
             else
               && (file in mid <==> file in before)
               && (file in before ==> mid[file] == before[file])
    requires Gained(mid, after, file, rows, first)
    ensures var hit := w.Some? && w.value.0 == file;
      Gained(before, after, file,
             (if hit then [Data(ValuesOf(w.value.1))] else []) + rows,
             if hit then Some(w.value.1) else first)
  {
    if w.Some? && w.value.0 == file {
      var start := if file in before then before[file] else [Header(KeysOf(w.value.1))];
      assert start + [Data(ValuesOf(w.value.1))] + rows == start + ([Data(ValuesOf(w.value.1))] + rows);
    } else {
      assert [] + rows == rows;
    }
  }

  /** What one message that goes through, and does not ask for a flush, does to one staging file. */
  lemma StagedAfterStep(c: Config, m: Message, validate: Validate, file: string)
    requires Inv(c) && Next(c, m, validate).1.Pass? && !AsksFlush(m)
    ensures var before, after := Files(c.staging), Files(Next(c, m, validate).0.staging);
      var w := Written(m);
      if w.Some? && w.value.0 == file then
        && file in after
        && after[file] == (if file in before then before[file] else [Header(KeysOf(w.value.1))]) + [Data(ValuesOf(w.value.1))]
      else
        && (file in after <==> file in before)
        && (file in before ==> after[file] == before[file])
  {
    if IsRecord(m) {
      RecordAppendsOneRow(c, m, validate);
    } else {
      NextKeepsStaging(c, m, validate);
    }
  }

  // ---------------------------------------------------------------------------
  // A worked run

  /** A validator that never raises. */
  function AcceptAll(v: Validator, record: Json): Check {
    Conforms
  }

  /** A RECORD carrying a dict for a stream whose schema is stored goes through when the validator accepts it. */
  lemma AcceptedRecord(c: Config, s: string, fs: Fields)
    requires Inv(c) && s in c.schemas
    ensures Next(c, Decoded(Some(JStr("RECORD")), Some(s), Some(JObj(fs)), None, None, None), AcceptAll)
         == (c.(filename := Some(CsvName(s)), staging := Some(AppendRecord(c.staging, CsvName(s), fs)), state := None), Pass)
  {
  }

  /** The two records of the worked run, written one after the other into a missing directory. */
  lemma UsersRows()
    ensures var first, second := [("id", JInt(1)), ("name", JStr("a"))], [("id", JInt(2)), ("name", JStr("b"))];
      var dir := AppendRecord(None, "users.csv", first);
      && dir == map["users.csv" := [Header(["id", "name"]), Data([JInt(1), JStr("a")])]]
      && AppendRecord(Some(dir), "users.csv", second)
         == map["users.csv" := [Header(["id", "name"]), Data([JInt(1), JStr("a")]), Data([JInt(2), JStr("b")])]]
  {
    var first, second := [("id", JInt(1)), ("name", JStr("a"))], [("id", JInt(2)), ("name", JStr("b"))];
    assert KeysOf(first) == ["id", "name"];
    assert ValuesOf(first) == [JInt(1), JStr("a")];
    assert ValuesOf(second) == [JInt(2), JStr("b")];
    assert [Header(["id", "name"])] + [Data([JInt(1), JStr("a")])] == [Header(["id", "name"]), Data([JInt(1), JStr("a")])];
    assert [Header(["id", "name"]), Data([JInt(1), JStr("a")])] + [Data([JInt(2), JStr("b")])]
        == [Header(["id", "name"]), Data([JInt(1), JStr("a")]), Data([JInt(2), JStr("b")])];
  }

  /**
   * SCHEMA "users" with key properties ["id"], then RECORDs {"id": 1, "name": "a"}
   * and {"id": 2, "name": "b"}: the run goes through, `users.csv` holds the
   * header ["id", "name"] and the two rows in arrival order, and the
   * returned checkpoint is None.
   */
  lemma UsersExample()
    ensures var ms := [
        Decoded(Some(JStr("SCHEMA")), Some("users"), None, Some(JObj([])), Some(JList([JStr("id")])), None),
        Decoded(Some(JStr("RECORD")), Some("users"), Some(JObj([("id", JInt(1)), ("name", JStr("a"))])), None, None, None),
        Decoded(Some(JStr("RECORD")), Some("users"), Some(JObj([("id", JInt(2)), ("name", JStr("b"))])), None, None, None)];
      var (c, o) := Run(Initial(None), ms, AcceptAll);
      && o == Pass
      && Files(c.staging) == map["users.csv" := [Header(["id", "name"]), Data([JInt(1), JStr("a")]), Data([JInt(2), JStr("b")])]]
      && c.state == None
  {
    var first, second := [("id", JInt(1)), ("name", JStr("a"))], [("id", JInt(2)), ("name", JStr("b"))];
    var ms := [
        Decoded(Some(JStr("SCHEMA")), Some("users"), None, Some(JObj([])), Some(JList([JStr("id")])), None),
        Decoded(Some(JStr("RECORD")), Some("users"), Some(JObj(first)), None, None, None),
        Decoded(Some(JStr("RECORD")), Some("users"), Some(JObj(second)), None, None, None)];
    var c0 := Initial(None);
    var (c1, o1) := Next(c0, ms[0], AcceptAll);
    assert o1 == Pass && "users" in c1.schemas;
    assert CsvName("users") == "users.csv";
    UsersRows();
    AcceptedRecord(c1, "users", first);
    var (c2, o2) := Next(c1, ms[1], AcceptAll);
    AcceptedRecord(c2, "users", second);
    var (c3, o3) := Next(c2, ms[2], AcceptAll);
    RunUnfold(c0, ms, AcceptAll);
    RunUnfold(c1, ms[1..], AcceptAll);
    RunUnfold(c2, ms[2..], AcceptAll);
    assert ms[1..][0] == ms[1] && ms[1..][1..] == ms[2..];
    assert ms[2..][0] == ms[2] && ms[2..][1..] == [];
  }
}
