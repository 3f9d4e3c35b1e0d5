/**
 * `persist_lines` as it runs: a per-run object whose fields are the
 * function's local tables, checkpoint and `filename`, together with the
 * staging directory and the blob container it writes to. Every step is
 * proved to do what `Protocol.Next` says.
 */
module Target {
  import opened Wrappers
  import opened Json
  import opened Flattener
  import opened Messages
  import opened Staging
  import opened Protocol
  import opened Properties

  class Target {
    var schemas: map<string, Json>
    var validators: map<string, Validator>
    var keyProperties: map<string, Json>
    var state: Option<Json>
    var filename: Option<string>
    var staging: Option<Dir>
    var blobs: Dir
    var errorLog: seq<string>
    const validate: Validate

    /** The part of the object the message interpreter describes. */
    function Snapshot(): Config
      reads this
    {
      Config(schemas, validators, keyProperties, state, filename, staging, errorLog)
    }

    ghost predicate Valid()
      reads this
    {
      Inv(Snapshot())
    }

    /** Empty tables, no checkpoint, `filename` unbound. */
    constructor (staging0: Option<Dir>, blobs0: Dir, validate: Validate)
      ensures Valid() && Snapshot() == Initial(staging0)
      ensures blobs == blobs0 && this.validate == validate
    {
      schemas, validators, keyProperties := map[], map[], map[];
      state, filename := None, None;
      staging, blobs, errorLog := staging0, blobs0, [];
      this.validate := validate;
    }

    /**
     * One line. The new state is the one `Next` describes; blob storage
     * changes only when a flush uploads, and then as `Promoted` says.
     */
    method Step(m: Message) returns (outcome: Outcome<Error>)
      requires Valid()
      modifies this
      ensures Valid()
      ensures (Snapshot(), outcome) == Next(old(Snapshot()), m, validate)
      ensures if Uploads(old(Snapshot()), m)
              then Promoted(Files(old(Snapshot()).staging), old(Snapshot()).filename.value, old(blobs), blobs)
              else blobs == old(blobs)
    {
      match m
      case Undecodable(line) =>
        errorLog := errorLog + ["Unable to parse:\n" + line];
        outcome := Fail(ParseError(line));
      case Decoded(t, _, _, _, _, _) =>
        if t.None? {
          outcome := Fail(MissingType);
        } else if IsRecord(m) {
          outcome := Record(m);
        } else if IsState(m) {
          outcome := State(m);
        } else if IsSchema(m) {
          outcome := Schema(m);
        } else if IsActivateVersion(m) {
          outcome := Pass;
        } else {
          outcome := Fail(UnknownType(t.value));
        }
    }

    method Record(m: Message) returns (outcome: Outcome<Error>)
      requires Valid() && IsRecord(m)
      modifies this
      ensures Valid()
      ensures (Snapshot(), outcome) == NextRecord(old(Snapshot()), m, validate)
      ensures blobs == old(blobs)
    {
      if m.stream.None? {
        return Fail(MissingStream);
      }
      var s := m.stream.value;
      if s !in schemas {
        return Fail(RecordBeforeSchema(s));
      }
      if m.record.None? {
        return Fail(MissingRecord);
      }
      var record := m.record.value;
      var check := validate(validators[s], record);
      match check {
        case Raised =>
          return Fail(ValidatorRaised);
        case ValidationError(message) =>
          if Contains(message, PrecisionMessage) {
            errorLog := errorLog + ["Validation error:" + message];
          }
        case Conforms =>
      }
      if !record.JObj? {
        return Fail(RecordNotMapping);
      }
      // flattened and then left unused, as `persist_lines` does
      var flattened := Flatten(record.fields);
      filename := Some(CsvName(s));
      WriteRow(CsvName(s), record.fields);
      state := None;
      outcome := Pass;
    }

    /** Create the directory if missing, the file with a header if missing, then append one row. */
    method WriteRow(file: string, record: Fields)
      modifies this`staging
      ensures staging == Some(AppendRecord(old(staging), file, record))
    {
      if staging.None? {
        staging := Some(map[]);
      }
      var dir := staging.value;
      var rows: seq<Row>;
      if file in dir {
        rows := dir[file];
      } else {
        rows := [Header(KeysOf(record))];
        staging := Some(dir[file := rows]);
      }
      staging := Some(dir[file := rows + [Data(ValuesOf(record))]]);
    }

    method State(m: Message) returns (outcome: Outcome<Error>)
      requires Valid() && IsState(m)
      modifies this
      ensures Valid()
      ensures (Snapshot(), outcome) == NextState(old(Snapshot()), m)
      ensures if Uploads(old(Snapshot()), m)
              then Promoted(Files(old(staging)), old(filename).value, old(blobs), blobs)
              else blobs == old(blobs)
    {
      if m.value.None? {
        return Fail(MissingValue);
      }
      state := m.value;
      var syncing := CurrentlySyncingOf(state.value);
      if syncing.Failure? {
        return Fail(syncing.error);
      }
      if !Truthy(syncing.value) && staging.Some? {
        outcome := Flush();
      } else {
        outcome := Pass;
      }
    }

    /**
     * The upload loop: each listed file is uploaded under `filename` and
     * removed. Reading `filename` before any RECORD bound it raises before
     * anything is uploaded.
     */
    method Flush() returns (outcome: Outcome<Error>)
      requires staging.Some?
      modifies this`staging, this`blobs
      ensures var dir := old(staging.value);
        if dir == map[] then
          outcome == Pass && staging == old(staging) && blobs == old(blobs)
        else if filename.None? then
          outcome == Fail(FilenameUnbound) && staging == old(staging) && blobs == old(blobs)
        else
          outcome == Pass && staging == Some(map[]) && Promoted(dir, filename.value, old(blobs), blobs)
    {
      var dir := staging.value;
      ghost var listed := dir;
      ghost var uploaded := false;
      while dir != map[]
        invariant staging == Some(dir)
        invariant dir.Keys <= listed.Keys && forall g :: g in dir ==> dir[g] == listed[g]
        invariant !uploaded ==> dir == listed && blobs == old(blobs)
        invariant uploaded ==> filename.Some? && Promoted(listed, filename.value, old(blobs), blobs)
        decreases |dir|
      {
        var f :| f in dir;
        if filename.None? {
          return Fail(FilenameUnbound);
        }
        blobs := blobs[filename.value := dir[f]];
        assert f in listed && blobs == old(blobs)[filename.value := listed[f]];
        dir := dir - {f};
        staging := Some(dir);
        uploaded := true;
      }
      outcome := Pass;
    }

    method Schema(m: Message) returns (outcome: Outcome<Error>)
      requires Valid() && IsSchema(m)
      modifies this
      ensures Valid()
      ensures (Snapshot(), outcome) == NextSchema(old(Snapshot()), m)
      ensures blobs == old(blobs)
    {
      if m.stream.None? {
        return Fail(MissingStream);
      }
      if m.schema.None? {
        return Fail(MissingSchema);
      }
      if !m.schema.value.JObj? {
        return Fail(SchemaNotMapping);
      }
      var s := m.stream.value;
      schemas := schemas[s := m.schema.value];
      validators := validators[s := Draft4(m.schema.value)];
      if m.keyProperties.None? {
        return Fail(MissingKeyProperties);
      }
      keyProperties := keyProperties[s := m.keyProperties.value];
      outcome := Pass;
    }
  }

  /** The staging-file names of the streams of the RECORDs among `ms`. */
  ghost function RecordNames(ms: seq<Message>): set<string> {
    set k | 0 <= k < |ms| && IsRecord(ms[k]) && ms[k].stream.Some? :: CsvName(ms[k].stream.value)
  }

  /** Every blob that is new or changed since `blobs0` has a name in `names`, and none was removed. */
  ghost predicate ChangedOnly(blobs0: Dir, blobs: Dir, names: set<string>) {
    && blobs0.Keys <= blobs.Keys
    && forall b :: b in blobs && (b !in blobs0 || blobs[b] != blobs0[b]) ==> b in names
  }

  /**
   * `persist_lines`: feed every line to a fresh run until one raises. On
   * success the result is the checkpoint left by the last message, which is
   * the value of the last STATE when no RECORD follows it. Blob storage only
   * gains or overwrites blobs, each named after the stream of some RECORD.
   */
  method PersistLines(lines: seq<Message>, staging0: Option<Dir>, blobs0: Dir, validate: Validate)
    returns (result: Result<Option<Json>, Error>, staging: Option<Dir>, blobs: Dir)
    ensures var (c, o) := Run(Initial(staging0), lines, validate);
      && staging == c.staging
      && result == (if o.Pass? then Success(c.state) else Failure(o.error))
    ensures result.Success? ==> result.value == LastCheckpoint(lines)
    ensures ChangedOnly(blobs0, blobs, RecordNames(lines))
  {
    ghost var run := Run(Initial(staging0), lines, validate);
    var t := new Target(staging0, blobs0, validate);
    var i := 0;
    while i < |lines|
      invariant 0 <= i <= |lines|
      invariant t.Valid() && t.validate == validate
      invariant run == Run(t.Snapshot(), lines[i..], validate)
      invariant t.filename.Some? ==> t.filename.value in RecordNames(lines)
      invariant ChangedOnly(blobs0, t.blobs, RecordNames(lines))
    {
      var o := Feed(t, lines, i, run, blobs0);
      if o.Fail? {
        result, staging, blobs := Failure(o.error), t.staging, t.blobs;
        return;
      }
      i := i + 1;
    }
    assert lines[i..] == [];
    result, staging, blobs := Success(t.state), t.staging, t.blobs;
    RunReturnsLastCheckpoint(staging0, lines, validate);
  }

  /** One turn of the loop of `PersistLines`: line `i` goes to `t`. */
  method Feed(t: Target, lines: seq<Message>, i: nat, ghost run: (Config, Outcome<Error>), ghost blobs0: Dir)
    returns (o: Outcome<Error>)
    requires t.Valid() && i < |lines|
    requires run == Run(t.Snapshot(), lines[i..], t.validate)
    requires t.filename.Some? ==> t.filename.value in RecordNames(lines)
    requires ChangedOnly(blobs0, t.blobs, RecordNames(lines))
    modifies t
    ensures t.Valid()
    ensures o.Fail? ==> run == (t.Snapshot(), o)
    ensures o.Pass? ==> run == Run(t.Snapshot(), lines[i + 1..], t.validate)
    ensures t.filename.Some? ==> t.filename.value in RecordNames(lines)
    ensures ChangedOnly(blobs0, t.blobs, RecordNames(lines))
  {
    ghost var before, blobsBefore := t.Snapshot(), t.blobs;
    o := t.Step(lines[i]);
    LoopStep(lines, i, run, before, t.Snapshot(), o, t.validate);
    BlobsAfterStep(lines, i, before, blobs0, blobsBefore, t.blobs, t.validate);
  }

  /** One turn of the loop of `PersistLines`: the rest of the run after line `i`, or its result when line `i` raises. */
  lemma LoopStep(lines: seq<Message>, i: nat, run: (Config, Outcome<Error>), c: Config, c': Config, o: Outcome<Error>,
                 validate: Validate)
    requires Inv(c) && i < |lines|
    requires run == Run(c, lines[i..], validate)
    requires (c', o) == Next(c, lines[i], validate)
    ensures o.Fail? ==> run == (c', o)
    ensures o.Pass? ==> run == Run(c', lines[i + 1..], validate)
  {
    var ms := lines[i..];
    assert ms[0] == lines[i] && ms[1..] == lines[i + 1..];
    RunUnfold(c, ms, validate);
  }


  /** What the loop of `PersistLines` keeps about `filename` and the blobs holds after one more line. */
  lemma BlobsAfterStep(lines: seq<Message>, i: nat, c: Config, blobs0: Dir, blobs: Dir, blobs': Dir, validate: Validate)
    requires Inv(c) && i < |lines|
    requires if Uploads(c, lines[i])
             then Promoted(Files(c.staging), c.filename.value, blobs, blobs')
             else blobs' == blobs
    requires c.filename.Some? ==> c.filename.value in RecordNames(lines)
    requires ChangedOnly(blobs0, blobs, RecordNames(lines))
    ensures var c' := Next(c, lines[i], validate).0;
      c'.filename.Some? ==> c'.filename.value in RecordNames(lines)
    ensures ChangedOnly(blobs0, blobs', RecordNames(lines))
  {
    NextFilename(c, lines[i], validate);
    if Uploads(c, lines[i]) {
      PromotedBlobs(Files(c.staging), c.filename.value, blobs, blobs');
    }
  }

  /** A flush keeps every blob and changes only the one it uploads under. */
  lemma PromotedBlobs(dir: Dir, name: string, blobs: Dir, blobs': Dir)
    requires Promoted(dir, name, blobs, blobs')
    ensures blobs.Keys <= blobs'.Keys
    ensures forall b :: b in blobs' && (b !in blobs || blobs'[b] != blobs[b]) ==> b == name
  {
  }
}
