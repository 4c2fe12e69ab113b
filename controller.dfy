/**
 * The host-side controller of the delay-detection experiment
 * (delaydetect.py): the capturing/running flags of the global config
 * dictionary, the bytes written to the serial port, the block of trials,
 * and the enablement of the "start block" and "abort" buttons.
 */
module DelayDetect {
  import opened Wrappers
  import opened Text
  import opened Protocol
  import opened TrialPlan

  /** The device line that announces the end of a trial. */
  const COMPLETION_MARKER: string := "Trial completed at"

  /** The Python exceptions the controller's operations can raise. */
  datatype PyError =
    | KeyError(key: string)   // config["comm"] before any port was opened, or a widget build_gui never registered
    | StructError             // struct.pack given a value outside the 32-bit range
    | TypeError               // iterating over an int

  /**
   * The numeric entries of the form, by the trialinfo key they are validated
   * under ("auditory.fb.delay", "metronome.interval", "metronome.nclicks",
   * "ncontinuation.clicks", "metronome.nclicks.predelay", "delay1", "delay2").
   */
  datatype Entry = FbDelay | Interval | NClicks | NContinuation | NClicksPredelay | Delay1 | Delay2

  /** How an operation ends: it completed, it rejected an entry (and said which), or it raised. */
  datatype Outcome = Done | Rejected(entry: Entry) | Raised(error: PyError)

  /** What one of the configuration senders does: how it ends and the bytes it writes, in order. */
  datatype Effect = Effect(outcome: Outcome, written: seq<Byte>)

  /** The widget values send_config reads: two check boxes and five text entries. */
  datatype TapForm = TapForm(
    auditoryFeedback: int,
    fbDelay: string,
    metronome: int,
    interval: string,
    nclicksPredelay: string,
    nclicks: string,
    ncontinuation: string)

  /** The entries send_config validates, in the order it validates them. */
  const TAP_KEYS: seq<Entry> := [FbDelay, Interval, NClicks, NContinuation, NClicksPredelay]

  /** The entries run_one_trial validates, in order. */
  const DELAY_KEYS: seq<Entry> := [Delay1, Delay2]

  /** The text entries of send_config's trialinfo dictionary, under their keys. */
  function TapEntries(form: TapForm): map<Entry, string> {
    map[
      FbDelay := form.fbDelay,
      Interval := form.interval,
      NClicksPredelay := form.nclicksPredelay,
      NClicks := form.nclicks,
      NContinuation := form.ncontinuation]
  }

  /** run_one_trial's trialinfo dictionary. */
  function DelayEntries(delay1: string, delay2: string): map<Entry, string> {
    map[Delay1 := delay1, Delay2 := delay2]
  }

  /** keys[i] is the first key whose entry check_and_convert_int refuses. */
  predicate FirstRejectedAt(keys: seq<Entry>, data: map<Entry, string>, i: int) {
    0 <= i < |keys|
    && CheckAndConvertInt(keys[i], data).None?
    && forall j :: 0 <= j < i ==> CheckAndConvertInt(keys[j], data).Some?
  }

  /**
   * The validation loop of send_config and run_one_trial: the converted values
   * in key order, or the first key that failed.
   */
  function ValidateFields(keys: seq<Entry>, data: map<Entry, string>): (r: Result<seq<nat>, Entry>)
    ensures r.Success? ==> |r.value| == |keys|
  {
    if keys == [] then Success([])
    else match CheckAndConvertInt(keys[0], data)
      case None => Failure(keys[0])
      case Some(v) =>
        match ValidateFields(keys[1..], data)
        case Failure(k) => Failure(k)
        case Success(vs) => Success([v] + vs)
  }

  /**
   * Validation succeeds exactly when every entry converts, and then yields
   * each entry's value in key order; otherwise it reports the first entry, in
   * key order, that does not convert.
   */
  lemma {:induction false} ValidateFieldsMeaning(keys: seq<Entry>, data: map<Entry, string>)
    ensures var r := ValidateFields(keys, data);
      r.Success? <==> forall j :: 0 <= j < |keys| ==> CheckAndConvertInt(keys[j], data).Some?
    ensures var r := ValidateFields(keys, data);
      r.Success? ==> |r.value| == |keys| && forall j :: 0 <= j < |keys| ==> CheckAndConvertInt(keys[j], data) == Some(r.value[j])
    ensures var r := ValidateFields(keys, data);
      r.Failure? ==> exists i :: FirstRejectedAt(keys, data, i) && keys[i] == r.error
  {
    if keys != [] {
      ValidateFieldsMeaning(keys[1..], data);
      var r := ValidateFields(keys, data);
      if CheckAndConvertInt(keys[0], data).None? {
        assert FirstRejectedAt(keys, data, 0);
      } else if r.Failure? {
        var i :| FirstRejectedAt(keys[1..], data, i) && keys[1..][i] == r.error;
        assert FirstRejectedAt(keys, data, i + 1);
      } else {
        forall j | 0 <= j < |keys| ensures CheckAndConvertInt(keys[j], data) == Some(r.value[j]) {
          if j > 0 { assert keys[j] == keys[1..][j - 1]; }
        }
      }
      if forall j :: 0 <= j < |keys| ==> CheckAndConvertInt(keys[j], data).Some? {
        assert forall j :: 0 <= j < |keys| - 1 ==> keys[1..][j] == keys[j + 1];
      }
    }
  }

  /** Entries holding the decimal forms of vs validate to exactly vs. */
  lemma {:induction false} ValidateFieldsOfDecimals(keys: seq<Entry>, data: map<Entry, string>, vs: seq<nat>)
    requires |vs| == |keys|
    requires forall j :: 0 <= j < |keys| ==> keys[j] in data && data[keys[j]] == Decimal(vs[j])
    ensures ValidateFields(keys, data) == Success(vs)
  {
    if keys != [] {
      var k, v := keys[0], vs[0];
      assert data[k] == "" + Zeros(0) + Decimal(v) + "";
      CheckAndConvertIntAcceptsPadded(k, data, "", 0, v, "");
      forall j | 0 <= j < |keys| - 1
        ensures keys[1..][j] in data && data[keys[1..][j]] == Decimal(vs[1..][j])
      {
        assert keys[1..][j] == keys[j + 1] && vs[1..][j] == vs[j + 1];
      }
      ValidateFieldsOfDecimals(keys[1..], data, vs[1..]);
      assert [v] + vs[1..] == vs;
    }
  }

  /**
   * The loop itself: for each key in order, convert its entry, and return at
   * the first failure.
   */
  method ConvertFields(keys: seq<Entry>, trialinfo: map<Entry, string>) returns (r: Result<seq<nat>, Entry>)
    ensures r == ValidateFields(keys, trialinfo)
  {
    ValidateFieldsMeaning(keys, trialinfo);
    var values: seq<nat> := [];
    var i := 0;
    while i < |keys|
      invariant 0 <= i <= |keys| && |values| == i
      invariant forall j :: 0 <= j < i ==> CheckAndConvertInt(keys[j], trialinfo) == Some(values[j])
    {
      var v := CheckAndConvertInt(keys[i], trialinfo);
      if v.None? {
        assert FirstRejectedAt(keys, trialinfo, i);
        ghost var expected := ValidateFields(keys, trialinfo);
        ghost var first :| FirstRejectedAt(keys, trialinfo, first) && keys[first] == expected.error;
        assert first == i;
        return Failure(keys[i]);
      }
      values := values + [v.value];
      i := i + 1;
    }
    assert ValidateFields(keys, trialinfo).value == values;
    r := Success(values);
  }

  /** The seven integers of a tapping configuration in wire order, from the form and the five validated entries. */
  function TapWords(form: TapForm, v: seq<nat>): (w: seq<int>)
    requires |v| == |TAP_KEYS|
    ensures |w| == TAP_CONFIG_WORDS
  {
    [form.auditoryFeedback, v[0], form.metronome, v[1], v[4], v[2], v[3]]
  }

  /**
   * The three writes send_config and run_one_trial share: STOP, the
   * configuration opcode, then the packed payload. Nothing is written when no
   * port was ever opened (the first write raises KeyError); STOP and the
   * opcode are written before struct.pack raises for a value outside 32 bits.
   */
  function WriteConfigEffect(opcode: Byte, words: seq<int>, hasComm: bool, order: ByteOrder): Effect {
    if !hasComm then Effect(Raised(KeyError("comm")), [])
    else if !AllInt32(words) then Effect(Raised(StructError), [MESSAGE_STOP, opcode])
    else Effect(Done, [MESSAGE_STOP, opcode] + Pack(words, order))
  }

  /** What send_config does to the port: nothing when an entry is refused, otherwise the tapping configuration's writes. */
  function SendConfigEffect(form: TapForm, hasComm: bool, order: ByteOrder): Effect {
    match ValidateFields(TAP_KEYS, TapEntries(form))
    case Failure(key) => Effect(Rejected(key), [])
    case Success(v) => WriteConfigEffect(MESSAGE_CONFIG, TapWords(form, v), hasComm, order)
  }

  /** The same for run_one_trial, with the delay-detection configuration. */
  function RunOneTrialEffect(delay1: string, delay2: string, hasComm: bool, order: ByteOrder): Effect {
    match ValidateFields(DELAY_KEYS, DelayEntries(delay1, delay2))
    case Failure(key) => Effect(Rejected(key), [])
    case Success(v) => WriteConfigEffect(MESSAGE_DELAYDETECT_CONFIG, v, hasComm, order)
  }

  /** send_config only succeeds once a port has been opened. */
  lemma SendConfigDoneNeedsPort(form: TapForm, hasComm: bool, order: ByteOrder)
    ensures SendConfigEffect(form, hasComm, order).outcome == Done ==> hasComm
  {
  }

  /** A refused entry is reported by the first key, in validation order, whose entry is refused, and nothing is written. */
  lemma SendConfigRejectsFirst(form: TapForm, hasComm: bool, order: ByteOrder)
    ensures var e := SendConfigEffect(form, hasComm, order);
      e.outcome.Rejected? <==> exists i :: FirstRejectedAt(TAP_KEYS, TapEntries(form), i)
    ensures var e := SendConfigEffect(form, hasComm, order);
      e.outcome.Rejected? ==> e.written == [] && exists i :: FirstRejectedAt(TAP_KEYS, TapEntries(form), i) && TAP_KEYS[i] == e.outcome.entry
  {
    var e := SendConfigEffect(form, hasComm, order);
    ValidateFieldsMeaning(TAP_KEYS, TapEntries(form));
    if i :| FirstRejectedAt(TAP_KEYS, TapEntries(form), i) {
      assert ValidateFields(TAP_KEYS, TapEntries(form)).Failure?;
    }
  }

  /** A successful configuration write is STOP, then the message carrying the opcode and payload. */
  lemma WriteConfigIsStopThenMessage(opcode: Byte, words: seq<int>, hasComm: bool, order: ByteOrder, m: Message)
    requires WriteConfigEffect(opcode, words, hasComm, order).outcome == Done
    requires WellFormed(m) && Encode(m, order) == [opcode] + Pack(words, order)
    ensures var w := WriteConfigEffect(opcode, words, hasComm, order).written;
      |w| == 2 + 4 * |words| && w[..2] == [MESSAGE_STOP, opcode]
      && Unpack(w[2..], order) == words
      && DecodeAll(w, order) == Some([Stop, m])
  {
    var w := WriteConfigEffect(opcode, words, hasComm, order).written;
    assert w[2..] == Pack(words, order);
    UnpackOfPack(words, order);
    assert w == [MESSAGE_STOP] + Encode(m, order);
    DecodeStopThen(m, order);
  }

  /**
   * A successful send_config writes STOP, then the tapping opcode, then the
   * seven integers feedback, feedback delay, metronome, interval, pre-delay
   * clicks, clicks, continuation clicks: 30 bytes that read back as exactly
   * the messages Stop and TapConfig.
   */
  lemma SendConfigWritesStopThenConfig(form: TapForm, hasComm: bool, order: ByteOrder)
    requires SendConfigEffect(form, hasComm, order).outcome == Done
    ensures var v := ValidateFields(TAP_KEYS, TapEntries(form)).value;
      var w := SendConfigEffect(form, hasComm, order).written;
      |w| == 30 && w[..2] == [MESSAGE_STOP, MESSAGE_CONFIG]
      && Unpack(w[2..], order) == [form.auditoryFeedback, v[0], form.metronome, v[1], v[4], v[2], v[3]]
      && DecodeAll(w, order) == Some([Stop, TapConfig(TapWords(form, v))])
  {
    var v := ValidateFields(TAP_KEYS, TapEntries(form)).value;
    var words := TapWords(form, v);
    WriteConfigIsStopThenMessage(MESSAGE_CONFIG, words, hasComm, order, TapConfig(words));
  }

  /**
   * A successful run_one_trial writes STOP, the delay-detection opcode and
   * the two validated delays: 10 bytes that read back as the messages Stop
   * and DelayConfig.
   */
  lemma RunOneTrialWritesStopThenDelays(delay1: string, delay2: string, hasComm: bool, order: ByteOrder)
    requires RunOneTrialEffect(delay1, delay2, hasComm, order).outcome == Done
    ensures var v := ValidateFields(DELAY_KEYS, DelayEntries(delay1, delay2)).value;
      var w := RunOneTrialEffect(delay1, delay2, hasComm, order).written;
      |w| == 10 && w[..2] == [MESSAGE_STOP, MESSAGE_DELAYDETECT_CONFIG]
      && CheckAndConvertInt(Delay1, DelayEntries(delay1, delay2)) == Some(v[0])
      && CheckAndConvertInt(Delay2, DelayEntries(delay1, delay2)) == Some(v[1])
      && Unpack(w[2..], order) == v
      && DecodeAll(w, order) == Some([Stop, DelayConfig(v[0], v[1])])
  {
    var v := ValidateFields(DELAY_KEYS, DelayEntries(delay1, delay2)).value;
    ValidateFieldsMeaning(DELAY_KEYS, DelayEntries(delay1, delay2));
    assert CheckAndConvertInt(DELAY_KEYS[0], DelayEntries(delay1, delay2)) == Some(v[0]);
    assert CheckAndConvertInt(DELAY_KEYS[1], DelayEntries(delay1, delay2)) == Some(v[1]);
    assert v == [v[0], v[1]];
    WriteConfigIsStopThenMessage(MESSAGE_DELAYDETECT_CONFIG, v, hasComm, order, DelayConfig(v[0], v[1]));
  }

  /** Entries rendered from any in-range delays are accepted and sent as those delays. */
  lemma RunOneTrialOfDecimals(d1: nat, d2: nat, order: ByteOrder)
    requires IsInt32(d1) && IsInt32(d2)
    ensures RunOneTrialEffect(Decimal(d1), Decimal(d2), true, order)
      == Effect(Done, [MESSAGE_STOP, MESSAGE_DELAYDETECT_CONFIG] + Encode32(d1, order) + Encode32(d2, order))
  {
    var data := DelayEntries(Decimal(d1), Decimal(d2));
    assert DELAY_KEYS[0] == Delay1 && DELAY_KEYS[1] == Delay2;
    ValidateFieldsOfDecimals(DELAY_KEYS, data, [d1, d2]);
    PackPair(d1, d2, order);
    assert AllInt32([d1, d2]);
  }

  /**
   * listen looks for the marker in the stripped line; since the marker has
   * non-blank ends, that is the same as finding it anywhere in the raw line.
   */
  lemma CompletionDetectedIffMarkerInLine(line: string)
    ensures Find(Strip(line), COMPLETION_MARKER) > -1 <==> Find(line, COMPLETION_MARKER) > -1
  {
    assert COMPLETION_MARKER[0] == 'T';
    assert COMPLETION_MARKER[|COMPLETION_MARKER| - 1] == 't';
    FindIgnoresStrip(line, COMPLETION_MARKER);
  }

  /** The form as update_enabled shows it: go enabled while capturing, abort while capturing and running. */
  predicate ButtonsShow(goEnabled: bool, abortEnabled: bool, capturing: bool, running: bool) {
    goEnabled == capturing && abortEnabled == (capturing && running)
  }

  class Controller {
    /** The host's native byte order, used by struct.pack for '7i' and '2i'. */
    const order: ByteOrder
    /** config has a "comm" entry: some port has been opened successfully. */
    var hasComm: bool
    /** config["capturing"]: the port is being listened to. */
    var capturing: bool
    /** config["running"]: a trial was started and has not completed or been aborted. */
    var running: bool
    /** Every byte written to the serial port, in order. */
    var sent: seq<Byte>
    /** config["trials"]: the block of delays built by go. */
    var trials: seq<int>
    /** Whether the "start block" and "abort" buttons are enabled. */
    var goEnabled: bool
    var abortEnabled: bool

    /** Nothing is captured or running without a port. */
    ghost predicate Valid()
      reads this
    {
      (capturing ==> hasComm) && (running ==> hasComm)
    }

    /** The buttons show the current flags, as after update_enabled. */
    predicate ButtonsCurrent()
      reads this
    {
      ButtonsShow(goEnabled, abortEnabled, capturing, running)
    }

    /** The state after start-up: nothing open, nothing running, build_gui's update_enabled applied. */
    constructor (order: ByteOrder)
      ensures Valid() && ButtonsCurrent() && this.order == order
      ensures !hasComm && !capturing && !running && sent == [] && trials == []
    {
      this.order := order;
      hasComm, capturing, running := false, false, false;
      sent, trials := [], [];
      goEnabled, abortEnabled := false, false;
    }

    /** update_enabled. */
    method UpdateEnabled()
      modifies this`goEnabled, this`abortEnabled
      ensures ButtonsCurrent()
    {
      goEnabled := capturing;
      abortEnabled := capturing && running;
    }

    /** config["comm"].write(bytes): raises KeyError when no port was ever opened. */
    method Write(bytes: seq<Byte>) returns (ok: bool)
      modifies this`sent
      ensures ok == hasComm
      ensures sent == old(sent) + (if hasComm then bytes else [])
    {
      if !hasComm {
        return false;
      }
      sent := sent + bytes;
      ok := true;
    }

    /**
     * openserial, with whether serial.Serial succeeded as input. Failure
     * clears capturing but does not call update_enabled, so the buttons keep
     * what they showed.
     */
    method OpenSerial(portOpens: bool) returns (success: bool)
      requires Valid()
      modifies this`hasComm, this`capturing, this`goEnabled, this`abortEnabled
      ensures Valid() && success == portOpens
      ensures success ==> hasComm && capturing && ButtonsCurrent()
      ensures !success ==>
        hasComm == old(hasComm) && !capturing && goEnabled == old(goEnabled) && abortEnabled == old(abortEnabled)
    {
      if !portOpens {
        capturing := false;
        return false;
      }
      hasComm := true;
      capturing := true;
      UpdateEnabled();
      success := true;
    }

    /**
     * listen, with the line readline returned as input (empty when nothing
     * arrived). Nothing is read unless capturing; a line containing the
     * completion marker ends the running trial.
     */
    method Listen(line: string) returns (read: bool)
      requires Valid()
      modifies this`running, this`goEnabled, this`abortEnabled
      ensures Valid() && read == capturing
      ensures read && |line| > 0 && Find(Strip(line), COMPLETION_MARKER) > -1 ==> !running && ButtonsCurrent()
      ensures !(read && |line| > 0 && Find(Strip(line), COMPLETION_MARKER) > -1) ==>
        running == old(running) && goEnabled == old(goEnabled) && abortEnabled == old(abortEnabled)
    {
      if !capturing {
        return false;
      }
      read := true;
      if |line| > 0 {
        var msg := Strip(line);
        if Find(msg, COMPLETION_MARKER) > -1 {
          running := false;
          UpdateEnabled();
        }
      }
    }

    /** The three writes of a configuration: STOP, the opcode, the payload packed as 32-bit integers. */
    method WriteConfig(opcode: Byte, words: seq<int>) returns (r: Outcome)
      modifies this`sent
      ensures var e := WriteConfigEffect(opcode, words, hasComm, order);
        r == e.outcome && sent == old(sent) + e.written
    {
      var ok := Write(Encode(Stop, order));
      if !ok {
        return Raised(KeyError("comm"));
      }
      ok := Write([opcode]);
      if !AllInt32(words) {
        return Raised(StructError);
      }
      ok := Write(Pack(words, order));
      r := Done;
    }

    /** send_config: validate the five entries in order, then write the tapping configuration. */
    method SendConfig(form: TapForm) returns (r: Outcome)
      modifies this`sent
      ensures var e := SendConfigEffect(form, hasComm, order);
        r == e.outcome && sent == old(sent) + e.written
    {
      var converted := ConvertFields(TAP_KEYS, TapEntries(form));
      if converted.Failure? {
        return Rejected(converted.error);
      }
      r := WriteConfig(MESSAGE_CONFIG, TapWords(form, converted.value));
    }

    /** run_one_trial: validate delay1 and delay2, then write the delay-detection configuration. */
    method RunOneTrial(delay1: string, delay2: string) returns (r: Outcome)
      modifies this`sent
      ensures var e := RunOneTrialEffect(delay1, delay2, hasComm, order);
        r == e.outcome && sent == old(sent) + e.written
    {
      var converted := ConvertFields(DELAY_KEYS, DelayEntries(delay1, delay2));
      if converted.Failure? {
        return Rejected(converted.error);
      }
      r := WriteConfig(MESSAGE_DELAYDETECT_CONFIG, converted.value);
    }

    /** The part single_trial and go share: send the configuration and, if it went out, START. */
    method ConfigureAndStart(form: TapForm) returns (r: Outcome)
      requires Valid() && !running && ButtonsCurrent()
      modifies this`sent, this`running, this`goEnabled, this`abortEnabled
      ensures Valid() && ButtonsCurrent()
      ensures var e := SendConfigEffect(form, hasComm, order);
        r == e.outcome && running == (r == Done)
        && sent == old(sent) + e.written + (if r == Done then Encode(Start, order) else [])
    {
      ghost var e := SendConfigEffect(form, hasComm, order);
      r := SendConfig(form);
      if r.Raised? {
        return;
      }
      if r == Done {
        SendConfigDoneNeedsPort(form, hasComm, order);
        var ok := Write(Encode(Start, order));
        running := true;
      }
      UpdateEnabled();
    }

    /**
     * single_trial: clear running, send the tapping configuration, and START
     * and set running only if that succeeded.
     */
    method SingleTrial(form: TapForm) returns (r: Outcome)
      requires Valid()
      modifies this`sent, this`running, this`goEnabled, this`abortEnabled
      ensures Valid() && ButtonsCurrent()
      ensures var e := SendConfigEffect(form, hasComm, order);
        r == e.outcome && running == (r == Done)
        && sent == old(sent) + e.written + (if r == Done then Encode(Start, order) else [])
    {
      running := false;
      UpdateEnabled();
      r := ConfigureAndStart(form);
    }

    /**
     * go, with range(N_REPETITIONS) for the repetition loop: clear running,
     * build a balanced block of trials, then as single_trial.
     */
    method Go(form: TapForm) returns (r: Outcome)
      requires Valid()
      modifies this`sent, this`running, this`goEnabled, this`abortEnabled, this`trials
      ensures Valid() && ButtonsCurrent()
      ensures var e := SendConfigEffect(form, hasComm, order);
        r == e.outcome && running == (r == Done)
        && sent == old(sent) + e.written + (if r == Done then Encode(Start, order) else [])
      ensures |trials| == |DELAYS| * N_REPETITIONS
      ensures forall k :: 0 <= k < N_REPETITIONS ==> multiset(Pass(trials, |DELAYS|, k)) == multiset(DELAYS)
      ensures forall d :: d in DELAYS ==> multiset(trials)[d] == N_REPETITIONS
    {
      running := false;
      UpdateEnabled();
      trials := BuildBlock();
      r := ConfigureAndStart(form);
    }

    /**
     * go as written: `for _ in N_REPETITIONS` iterates over an int and raises
     * TypeError after running was cleared, so no trials are stored and nothing
     * is sent.
     */
    method GoAsWritten() returns (r: Outcome)
      requires Valid()
      modifies this`running, this`goEnabled, this`abortEnabled
      ensures Valid() && ButtonsCurrent()
      ensures r == Raised(TypeError) && !running
    {
      running := false;
      UpdateEnabled();
      r := Raised(TypeError);
    }

    /**
     * single_trial as written: send_config's first read, config["auditoryfb"],
     * names a widget build_gui never registers, so KeyError is raised after
     * running was cleared and the buttons updated, before any byte is written.
     */
    method SingleTrialAsWritten() returns (r: Outcome)
      requires Valid()
      modifies this`running, this`goEnabled, this`abortEnabled
      ensures Valid() && ButtonsCurrent()
      ensures r == Raised(KeyError("auditoryfb")) && !running
    {
      running := false;
      UpdateEnabled();
      r := Raised(KeyError("auditoryfb"));
    }

    /** abort: one STOP byte, then running is cleared; raises before anything when no port was ever opened. */
    method Abort() returns (r: Outcome)
      requires Valid()
      modifies this`sent, this`running, this`goEnabled, this`abortEnabled
      ensures Valid()
      ensures hasComm ==> r == Done && sent == old(sent) + Encode(Stop, order) && !running && ButtonsCurrent()
      ensures !hasComm ==>
        r == Raised(KeyError("comm")) && sent == old(sent) && running == old(running) && goEnabled == old(goEnabled) && abortEnabled == old(abortEnabled)
    {
      var ok := Write(Encode(Stop, order));
      if !ok {
        return Raised(KeyError("comm"));
      }
      running := false;
      UpdateEnabled();
      r := Done;
    }
  }

  /**
   * A flag combination no operation means to produce: running set while
   * capturing is clear. A trial started with any form send_config accepts,
   * then a failed re-open of the port, leaves it so, with the abort button
   * still enabled.
   */
  method RunningAfterFailedReopen(order: ByteOrder, form: TapForm) returns (running: bool, capturing: bool, abortEnabled: bool)
    requires SendConfigEffect(form, true, order).outcome == Done
    ensures running && !capturing && abortEnabled
  {
    var c := new Controller(order);
    var ok := c.OpenSerial(true);
    var r := c.SingleTrial(form);
    ok := c.OpenSerial(false);
    running, capturing, abortEnabled := c.running, c.capturing, c.abortEnabled;
  }
}
