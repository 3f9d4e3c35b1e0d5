/**
 * The message interpreter of `persist_lines` as a function: what one message
 * does to the run's tables, checkpoint and staging directory, and whether it
 * raises. The class `Target.Target` carries out the same steps in place.
 */
module Protocol {
  import opened Wrappers
  import opened Json
  import opened Messages
  import opened Staging

  /** `Draft4Validator(schema)`: a validator is determined by its schema. */
  datatype Validator = Draft4(schema: Json)

  /** What `validator.validate(record)` does: return, raise a ValidationError, or raise anything else. */
  datatype Check = Conforms | ValidationError(message: string) | Raised

  /** jsonschema's validation, which the model does not look inside. */
  type Validate = (Validator, Json) -> Check

  const PrecisionMessage: string := "is not a multiple of 0.01"
  const CurrentlySyncing: string := "currently_syncing"
  const CsvSuffix: string := ".csv"

  /** Python's `sub in s` on strings. */
  predicate Contains(s: string, sub: string)
    decreases |s|
  {
    if |s| < |sub| then false else s[..|sub|] == sub || Contains(s[1..], sub)
  }

  /** `sub` occurs in `s` starting at index `i`. */
  predicate OccursAt(s: string, sub: string, i: int) {
    0 <= i <= |s| - |sub| && s[i..i + |sub|] == sub
  }

  /** `Contains` holds exactly when `sub` occurs in `s` at some position. */
  lemma {:induction false} ContainsOccurs(s: string, sub: string)
    ensures Contains(s, sub) <==> exists i :: OccursAt(s, sub, i)
    decreases |s|
  {
    if |s| >= |sub| {
      if s[..|sub|] == sub {
        assert OccursAt(s, sub, 0);
      } else {
        var t := s[1..];
        ContainsOccurs(t, sub);
        forall i | OccursAt(s, sub, i) ensures OccursAt(t, sub, i - 1) {
          assert t[i - 1..i - 1 + |sub|] == s[i..i + |sub|];
        }
        forall i | OccursAt(t, sub, i) ensures OccursAt(s, sub, i + 1) {
          assert s[i + 1..i + 1 + |sub|] == t[i..i + |sub|];
        }
      }
    }
  }

  /** The local variables of `persist_lines` and the staging directory and error log it works on. */
  datatype Config = Config(
    schemas: map<string, Json>,          // schemas
    validators: map<string, Validator>,  // validators
    keyProperties: map<string, Json>,    // key_properties
    state: Option<Json>,                 // state
    filename: Option<string>,            // filename; None while still unbound
    staging: Option<Dir>,                // ~/<container>; None while it does not exist
    errorLog: seq<string>)               // logger.error messages

  /** Every stream with a schema has the validator built from it; key properties only for such streams. */
  ghost predicate Inv(c: Config) {
    && c.validators.Keys == c.schemas.Keys
    && (forall s :: s in c.schemas ==> c.validators[s] == Draft4(c.schemas[s]))
    && c.keyProperties.Keys <= c.schemas.Keys
  }

  /** The configuration `persist_lines` starts from, over an existing or missing staging directory. */
  function Initial(staging: Option<Dir>): (c: Config)
    ensures Inv(c)
  {
    Config(map[], map[], map[], None, None, staging, [])
  }

  /** The staging file a RECORD for stream `s` is written to. */
  function CsvName(s: string): (r: string)
    ensures |r| == |s| + 4 && r[..|s|] == s && r[|s|..] == ".csv"
  {
    s + CsvSuffix
  }

  /** `state['currently_syncing']`, or the exception it raises. */
  function CurrentlySyncingOf(state: Json): (r: Result<Json, Error>)
    ensures r.Success? <==> state.JObj? && CurrentlySyncing in KeySet(state.fields)
    ensures r.Success? ==> exists i :: 0 <= i < |state.fields| && state.fields[i] == (CurrentlySyncing, r.value)
    ensures r.Failure? ==> r.error == if state.JObj? then MissingCurrentlySyncing else StateNotMapping
  {
    match state
    case JObj(fs) =>
      (match Lookup(fs, CurrentlySyncing)
       case Some(cs) => Success(cs)
       case None => Failure(MissingCurrentlySyncing))
    case _ => Failure(StateNotMapping)
  }

  /** A STATE whose `currently_syncing` is present and falsy: it asks for a flush. */
  predicate AsksFlush(m: Message) {
    && IsState(m)
    && m.value.Some?
    && CurrentlySyncingOf(m.value.value).Success?
    && !Truthy(CurrentlySyncingOf(m.value.value).value)
  }

  /** The upload loop of a flush runs: a flush is asked for, the directory has files and `filename` is bound. */
  predicate Uploads(c: Config, m: Message) {
    AsksFlush(m) && Files(c.staging) != map[] && c.filename.Some?
  }

  /** One input line. */
  function Next(c: Config, m: Message, validate: Validate): (r: (Config, Outcome<Error>))
    requires Inv(c)
    ensures Inv(r.0)
  {
    match m
    case Undecodable(line) =>
      (c.(errorLog := c.errorLog + ["Unable to parse:\n" + line]), Fail(ParseError(line)))
    case Decoded(t, _, _, _, _, _) =>
      if t.None? then (c, Fail(MissingType))
      else if IsRecord(m) then NextRecord(c, m, validate)
      else if IsState(m) then NextState(c, m)
      else if IsSchema(m) then NextSchema(c, m)
      else if IsActivateVersion(m) then (c, Pass)
      else (c, Fail(UnknownType(t.value)))
  }

  /** A RECORD: check stream and schema, validate, write a row, forget the checkpoint. */
  function NextRecord(c: Config, m: Message, validate: Validate): (r: (Config, Outcome<Error>))
    requires Inv(c) && IsRecord(m)
    ensures Inv(r.0)
  {
    if m.stream.None? then (c, Fail(MissingStream))
    else
      var s := m.stream.value;
      if s !in c.schemas then (c, Fail(RecordBeforeSchema(s)))
      else if m.record.None? then (c, Fail(MissingRecord))
      else
        var record := m.record.value;
        var check := validate(c.validators[s], record);
        if check.Raised? then (c, Fail(ValidatorRaised))
        else
          var logged :=
            if check.ValidationError? && Contains(check.message, PrecisionMessage)
            then c.errorLog + ["Validation error:" + check.message]
            else c.errorLog;
          var c1 := c.(errorLog := logged);
          if !record.JObj? then (c1, Fail(RecordNotMapping))
          else
            var file := CsvName(s);
            (c1.(filename := Some(file),
                 staging := Some(AppendRecord(c.staging, file, record.fields)),
                 state := None),
             Pass)
  }

  /** A STATE: take its value as the checkpoint, then flush unless a stream is still syncing. */
  function NextState(c: Config, m: Message): (r: (Config, Outcome<Error>))
    requires Inv(c) && IsState(m)
    ensures Inv(r.0)
  {
    if m.value.None? then (c, Fail(MissingValue))
    else
      var c1 := c.(state := m.value);
      match CurrentlySyncingOf(m.value.value)
      case Failure(e) => (c1, Fail(e))
      case Success(cs) =>
        if Truthy(cs) || c.staging.None? || c.staging.value == map[] then (c1, Pass)
        else if c.filename.None? then (c1, Fail(FilenameUnbound))
        else (c1.(staging := Some(map[])), Pass)
  }

  /** A SCHEMA: store schema and validator, then require and store the key properties. */
  function NextSchema(c: Config, m: Message): (r: (Config, Outcome<Error>))
    requires Inv(c) && IsSchema(m)
    ensures Inv(r.0)
  {
    if m.stream.None? then (c, Fail(MissingStream))
    else if m.schema.None? then (c, Fail(MissingSchema))
    else if !m.schema.value.JObj? then (c, Fail(SchemaNotMapping))
    else
      var s, schema := m.stream.value, m.schema.value;
      var c1 := c.(schemas := c.schemas[s := schema], validators := c.validators[s := Draft4(schema)]);
      if m.keyProperties.None? then (c1, Fail(MissingKeyProperties))
      else (c1.(keyProperties := c.keyProperties[s := m.keyProperties.value]), Pass)
  }

  /** The loop of `persist_lines`: messages in order until the first one raises. */
  function Run(c: Config, ms: seq<Message>, validate: Validate): (r: (Config, Outcome<Error>))
    requires Inv(c)
    ensures Inv(r.0)
    decreases |ms|
  {
    if ms == [] then (c, Pass)
    else
      var (c1, o) := Next(c, ms[0], validate);
      if o.Fail? then (c1, o) else Run(c1, ms[1..], validate)
  }
}
