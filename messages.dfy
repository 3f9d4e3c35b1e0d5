/**
 * Singer messages as `persist_lines` reads them, the exceptions that end a
 * run, and the checkpoint the run hands back to `emit_state`.
 */
module Messages {
  import opened Wrappers
  import opened Json

  /**
   * One input line. A line `json.loads` rejects is `Undecodable`; otherwise
   * each field is the value under that key of the decoded dict, or None when
   * the key is absent.
   */
  datatype Message =
    | Undecodable(line: string)
    | Decoded(
        msgType: Option<Json>,        // o['type']
        stream: Option<string>,       // o['stream']
        record: Option<Json>,         // o['record']
        schema: Option<Json>,         // o['schema']
        keyProperties: Option<Json>,  // o['key_properties']
        value: Option<Json>)          // o['value']

  predicate IsRecord(m: Message) {
    m.Decoded? && m.msgType == Some(JStr("RECORD"))
  }

  predicate IsState(m: Message) {
    m.Decoded? && m.msgType == Some(JStr("STATE"))
  }

  predicate IsSchema(m: Message) {
    m.Decoded? && m.msgType == Some(JStr("SCHEMA"))
  }

  predicate IsActivateVersion(m: Message) {
    m.Decoded? && m.msgType == Some(JStr("ACTIVATE_VERSION"))
  }

  /** The exceptions that escape `persist_lines` and end the run. */
  datatype Error =
    | ParseError(line: string)        // JSONDecodeError, re-raised
    | MissingType                     // "Line is missing required key 'type'"
    | UnknownType(t: Json)            // "Unknown message type"
    | MissingStream                   // "Line is missing required key 'stream'"
    | RecordBeforeSchema(stream: string) // "A record for stream ... before a corresponding schema"
    | MissingRecord                   // KeyError on o['record'], re-raised from the validation block
    | ValidatorRaised                 // a non-ValidationError exception from validate, re-raised
    | RecordNotMapping                // AttributeError: flatten calls .items() on the record
    | MissingValue                    // KeyError on o['value']
    | StateNotMapping                 // TypeError: state['currently_syncing'] on a non-dict
    | MissingCurrentlySyncing         // KeyError on state['currently_syncing']
    | MissingSchema                   // KeyError on o['schema']
    | SchemaNotMapping                // AttributeError: Draft4Validator calls .get on a schema that is not a dict
    | MissingKeyProperties            // "key_properties field is required"
    | FilenameUnbound                 // UnboundLocalError: `filename` read before any RECORD set it

  /** How one message changes the tracked checkpoint when it goes through. */
  function CheckpointEffect(state: Option<Json>, m: Message): Option<Json> {
    if IsRecord(m) then None
    else if IsState(m) then m.value
    else state
  }

  /** The checkpoint tracked after `ms`, starting from `state`. */
  function CheckpointAfter(state: Option<Json>, ms: seq<Message>): Option<Json>
    decreases |ms|
  {
    if ms == [] then state else CheckpointAfter(CheckpointEffect(state, ms[0]), ms[1..])
  }

  /** The checkpoint a run over `ms` returns: it starts as None. */
  function LastCheckpoint(ms: seq<Message>): (r: Option<Json>)
    ensures ms == [] ==> r == None
    ensures ms != [] && IsRecord(ms[|ms| - 1]) ==> r == None
    ensures ms != [] && IsState(ms[|ms| - 1]) ==> r == ms[|ms| - 1].value
    ensures ms != [] && Neutral(ms[|ms| - 1]) ==> r == LastCheckpoint(ms[..|ms| - 1])
  {
    if ms == [] then None
    else
      var n := |ms| - 1;
      assert ms == ms[..n] + [ms[n]];
      CheckpointAfterSnoc(None, ms[..n], ms[n]);
      CheckpointAfter(None, ms)
  }

  /** Neither a RECORD nor a STATE: the message leaves the checkpoint alone. */
  predicate Neutral(m: Message) {
    !IsRecord(m) && !IsState(m)
  }

  lemma {:induction false} CheckpointAfterSnoc(state: Option<Json>, ms: seq<Message>, m: Message)
    ensures CheckpointAfter(state, ms + [m]) == CheckpointEffect(CheckpointAfter(state, ms), m)
    decreases |ms|
  {
    if ms != [] {
      assert (ms + [m])[1..] == ms[1..] + [m];
      CheckpointAfterSnoc(CheckpointEffect(state, ms[0]), ms[1..], m);
    }
  }

  /**
   * The returned checkpoint is the value of the STATE at `i` when no RECORD
   * and no other STATE follows it.
   */
  lemma {:induction false} LastStateIsReturned(ms: seq<Message>, i: nat)
    requires i < |ms| && IsState(ms[i])
    requires forall j :: i < j < |ms| ==> Neutral(ms[j])
    ensures LastCheckpoint(ms) == ms[i].value
    decreases |ms|
  {
    var n := |ms| - 1;
    assert ms == ms[..n] + [ms[n]];
    CheckpointAfterSnoc(None, ms[..n], ms[n]);
    if i < n {
      LastStateIsReturned(ms[..n], i);
    }
  }

  /**
   * A returned checkpoint comes from a STATE that no RECORD and no other
   * STATE follows.
   */
  lemma {:induction false} ReturnedIsLastState(ms: seq<Message>) returns (i: nat)
    requires LastCheckpoint(ms).Some?
    ensures i < |ms| && IsState(ms[i]) && ms[i].value == LastCheckpoint(ms)
    ensures forall j :: i < j < |ms| ==> Neutral(ms[j])
    decreases |ms|
  {
    var n := |ms| - 1;
    assert ms != [];
    assert ms == ms[..n] + [ms[n]];
    CheckpointAfterSnoc(None, ms[..n], ms[n]);
    if IsState(ms[n]) {
      i := n;
    } else {
      i := ReturnedIsLastState(ms[..n]);
    }
  }

  /** A run in which a RECORD comes after every STATE, or with no STATE at all, returns None. */
  lemma {:induction false} RecordAfterStatesReturnsNone(ms: seq<Message>)
    requires forall i :: 0 <= i < |ms| && IsState(ms[i]) ==> exists j :: i < j < |ms| && IsRecord(ms[j])
    ensures LastCheckpoint(ms) == None
  {
    if LastCheckpoint(ms).Some? {
      var i := ReturnedIsLastState(ms);
      assert false;
    }
  }

  /**
   * A STATE that no RECORD follows leaves a checkpoint behind, when every
   * STATE carries a value.
   */
  lemma {:induction false} StateWithoutLaterRecord(ms: seq<Message>, k: nat)
    requires k < |ms| && IsState(ms[k])
    requires forall j :: 0 <= j < |ms| && IsState(ms[j]) ==> ms[j].value.Some?
    requires forall j :: k < j < |ms| ==> !IsRecord(ms[j])
    ensures LastCheckpoint(ms).Some?
    decreases |ms|
  {
    var n := |ms| - 1;
    assert ms == ms[..n] + [ms[n]];
    CheckpointAfterSnoc(None, ms[..n], ms[n]);
    if k < n && !IsState(ms[n]) {
      StateWithoutLaterRecord(ms[..n], k);
    }
  }

  /**
   * `emit_state`: the lines written to standard output, one per JSON
   * document. A checkpoint holding JSON null is Python's None as well, and
   * writes nothing.
   */
  function EmitState(state: Option<Json>): (out: seq<Json>)
    ensures |out| <= 1
    ensures out == [] <==> state.None? || state.value.JNull?
    ensures out != [] ==> out[0] == state.value
  {
    match state
    case None => []
    case Some(JNull) => []
    case Some(v) => [v]
  }
}
