/**
 * The device side of the link (scp2_main.py): a dispatcher that reads one
 * opcode byte per cycle, reads the opcode's parameters, runs the matching
 * handler and writes the reply bytes.
 *
 * The pure functions below say what one cycle does; the class Device runs
 * the same cycle step by step over its serial port, LED strip and image
 * file, and each of its methods is proved against those functions.
 */
module Device {
  import opened Wrappers
  import opened Codec
  import opened Sequences

  /** What one `ser.read(1)` yields: nothing before the timeout, or one byte. */
  datatype ReadResult = Timeout | Data(b: uint8)

  const CAPTURE: uint8 := 0x00
  const FETCH_IMAGE: uint8 := 0x01
  const TELEMETRY: uint8 := 0x02

  /** A colour for the LED strip. */
  datatype Color = Color(red: nat, green: nat, blue: nat)

  const Off := Color(0, 0, 0)

  /** What the collaborators are made to do, in order: fill the LED strip, run the camera. */
  datatype Effect = Fill(color: Color) | Shoot

  /** The exceptions a handler can raise: `to_bytes` overflow, and opening a missing image file. */
  datatype Fault = Overflow | FileNotFound

  /**
   * What the collaborators report in one cycle: the bytes the camera leaves in
   * the image file (None when it leaves the file as it was), and the integer
   * CPU temperature and scaled load.
   */
  datatype Env = Env(shot: Option<seq<uint8>>, temperature: int, load: int)

  /** A request as the dispatcher decodes it. */
  datatype Command =
    | Idle                  // the opcode read timed out
    | Ignored(op: uint8)    // an opcode the device does not know
    | Capture(focus: nat, red: nat, green: nat, blue: nat)
    | FetchImage
    | Telemetry

  /** The device's persistent state: the LED colour and the image file (None while there is none). */
  datatype DevState = DevState(led: Color, image: Option<seq<uint8>>)

  /** The effect of one dispatcher cycle. */
  datatype Outcome = Outcome(state: DevState, out: seq<uint8>, effects: seq<Effect>, fault: Option<Fault>)

  /** The next read of the port; once the input script is used up, every read times out. */
  function Next(rx: seq<ReadResult>): (ReadResult, seq<ReadResult>)
  {
    if rx == [] then (Timeout, []) else (rx[0], rx[1..])
  }

  /** The `bytes` object a read returns: `b''` on a timeout. */
  function AsBytes(r: ReadResult): seq<uint8>
  {
    match r
    case Timeout => []
    case Data(b) => [b]
  }

  /** The reads left after `k` more reads. */
  function Drop(rx: seq<ReadResult>, k: nat): seq<ReadResult>
  {
    if k <= |rx| then rx[k..] else []
  }

  /** The value a parameter read decodes to: its byte, or 0 when it timed out. */
  function ParamAt(rx: seq<ReadResult>, i: nat): nat
  {
    if i < |rx| && rx[i].Data? then rx[i].b else 0
  }

  /**
   * The reads of one cycle: the opcode, and for CAPTURE the four parameter
   * bytes, each decoded with `from_bytes`. Returns the command and the reads left.
   */
  function Parse(rx: seq<ReadResult>): (p: (Command, seq<ReadResult>))
    ensures p.1 == Drop(rx, if p.0.Capture? then 5 else 1)
    ensures p.0.Capture? ==> p.0.focus < 256 && p.0.red < 256 && p.0.green < 256 && p.0.blue < 256
  {
    var (op, rx1) := Next(rx);
    if AsBytes(op) == [CAPTURE] then
      var (f, rx2) := Next(rx1);
      var (r, rx3) := Next(rx2);
      var (g, rx4) := Next(rx3);
      var (b, rx5) := Next(rx4);
      (Capture(FromBytes(AsBytes(f)), FromBytes(AsBytes(r)), FromBytes(AsBytes(g)), FromBytes(AsBytes(b))), rx5)
    else if AsBytes(op) == [FETCH_IMAGE] then (FetchImage, rx1)
    else if AsBytes(op) == [TELEMETRY] then (Telemetry, rx1)
    else if op.Timeout? then (Idle, rx1)
    else (Ignored(op.b), rx1)
  }

  /**
   * `take_pic`: light the LED, run the camera, switch the LED off, then open
   * the image file and report its length.
   */
  function TakePicture(st: DevState, red: nat, green: nat, blue: nat, shot: Option<seq<uint8>>)
    : (p: (DevState, seq<Effect>, Result<nat, Fault>))
    ensures p.0.led == Off
    ensures shot.None? ==> p.0.image == st.image
    ensures p.2.Success? <==> p.0.image.Some?
    ensures p.2.Success? ==> p.2.value == |p.0.image.value|
    ensures p.2.Failure? ==> p.2.error == FileNotFound
  {
    var image := if shot.Some? then shot else st.image;
    (DevState(Off, image),
     [Fill(Color(red, green, blue)), Shoot, Fill(Off)],
     if image.Some? then Success(|image.value|) else Failure(FileNotFound))
  }

  /** `get_image`: the bytes streamed from the image file, or the fault of opening it. */
  function ImageStream(st: DevState): (p: (seq<uint8>, Option<Fault>))
    ensures p.1.None? <==> st.image.Some?
    ensures p.1.None? ==> p.0 == st.image.value
    ensures p.1.Some? ==> p.0 == [] && p.1 == Some(FileNotFound)
  {
    if st.image.Some? then (st.image.value, None) else ([], Some(FileNotFound))
  }

  /** `get_telemetry`: the temperature byte is written before the load is encoded. */
  function TelemetryReply(temperature: int, load: int): (p: (seq<uint8>, Option<Fault>))
    ensures p.1.None? <==> 0 <= temperature < 256 && 0 <= load < 256
    ensures p.1.None? ==> p.0 == [temperature, load]
    ensures p.1.Some? ==> p.1 == Some(Overflow) && (p.0 == [] || p.0 == [temperature])
  {
    match ToBytes(temperature, 1)
    case Failure(_) => ([], Some(Overflow))
    case Success(t) =>
      match ToBytes(load, 1)
      case Failure(_) => (t, Some(Overflow))
      case Success(l) =>
        (t + l, None)
  }

  /** One handler run; a raised fault ends the handler, and what was written stays written. */
  function Execute(st: DevState, cmd: Command, env: Env): (o: Outcome)
    ensures !cmd.Capture? ==> o.state == st && o.effects == []
    ensures cmd.Capture? ==> o.state.led == Off && (env.shot.None? ==> o.state.image == st.image)
  {
    match cmd
    case Idle => Outcome(st, [], [], None)
    case Ignored(_) => Outcome(st, [], [], None)
    case Capture(_, r, g, b) =>
      var (st', effects, size) := TakePicture(st, r, g, b, env.shot);
      if size.Failure? then Outcome(st', [], effects, Some(size.error))
      else
        (match ToBytes(size.value, 3)
         case Success(reply) => Outcome(st', reply, effects, None)
         case Failure(_) => Outcome(st', [], effects, Some(Overflow)))
    case FetchImage =>
      var (bytes, fault) := ImageStream(st);
      Outcome(st, bytes, [], fault)
    case Telemetry =>
      var (bytes, fault) := TelemetryReply(env.temperature, env.load);
      Outcome(st, bytes, [], fault)
  }

  /** One cycle of the main loop: read a command, run its handler. */
  function Cycle(st: DevState, rx: seq<ReadResult>, env: Env): (Outcome, seq<ReadResult>)
  {
    var (cmd, rest) := Parse(rx);
    (Execute(st, cmd, env), rest)
  }

  /**
   * A cycle uses up five reads after a CAPTURE opcode and one otherwise; any
   * other first read leaves the device state alone and drives no hardware.
   */
  lemma CycleReads(st: DevState, rx: seq<ReadResult>, env: Env)
    ensures var c := Cycle(st, rx, env);
            && c.1 == Drop(rx, if rx != [] && rx[0] == Data(CAPTURE) then 5 else 1)
            && (!(rx != [] && rx[0] == Data(CAPTURE)) ==> c.0.state == st && c.0.effects == [])
  {
  }

  /** What a run of the main loop has done so far. */
  datatype Trace = Trace(state: DevState, rx: seq<ReadResult>, out: seq<uint8>,
                         effects: seq<Effect>, faults: seq<Option<Fault>>)

  /** The trace after one more cycle. */
  function Extend(t: Trace, env: Env): Trace
  {
    var c := Cycle(t.state, t.rx, env);
    Trace(c.0.state, c.1, t.out + c.0.out, t.effects + c.0.effects, t.faults + [c.0.fault])
  }

  /**
   * `|envs|` cycles of the main loop. Every cycle, faulty or not, ends back
   * at the opcode read; its fault is only logged.
   */
  function Steps(st: DevState, rx: seq<ReadResult>, envs: seq<Env>): (t: Trace)
    ensures |t.faults| == |envs|
    decreases |envs|
  {
    if envs == [] then Trace(st, rx, [], [], [])
    else Extend(Steps(st, rx, envs[..|envs| - 1]), envs[|envs| - 1])
  }

  /** A read that starts no command: a timeout, or an opcode other than 0x00, 0x01, 0x02. */
  predicate Quiet(r: ReadResult)
  {
    r.Timeout? || r.b > TELEMETRY
  }

  /** A timeout or an unknown opcode writes nothing, changes nothing, and uses up one read. */
  lemma QuietCycle(st: DevState, rx: seq<ReadResult>, env: Env)
    requires rx != [] ==> Quiet(rx[0])
    ensures var (cmd, rest) := Parse(rx);
            var o := Execute(st, cmd, env);
            o == Outcome(st, [], [], None) && rest == Drop(rx, 1)
  {
  }

  /**
   * CAPTURE reads exactly four more bytes, as focus, red, green, blue in that
   * order; a parameter read that times out counts as 0. Focus is not range checked.
   */
  lemma CaptureFields(rx: seq<ReadResult>)
    requires rx != [] && rx[0] == Data(CAPTURE)
    ensures Parse(rx) == (Capture(ParamAt(rx, 1), ParamAt(rx, 2), ParamAt(rx, 3), ParamAt(rx, 4)), Drop(rx, 5))
  {
    forall i: nat | 1 <= i <= 4
      ensures FromBytes(AsBytes(Next(Drop(rx, i)).0)) == ParamAt(rx, i)
    {
      var r := Next(Drop(rx, i)).0;
      assert r == if i < |rx| then rx[i] else Timeout;
      if r.Data? {
        assert AsBytes(r)[..0] == [];
      }
    }
    forall i: nat | 1 <= i <= 4
      ensures Next(Drop(rx, i)).1 == Drop(rx, i + 1)
    {
      if i < |rx| {
        assert rx[i..][1..] == rx[i + 1..];
      }
    }
  }

  /**
   * CAPTURE lights the LED in the requested colour, runs the camera, turns the
   * LED off, and replies with the image length as 3 bytes. With no image file,
   * or an image of 2^24 bytes or more, it writes nothing and faults.
   */
  lemma CaptureReply(st: DevState, focus: nat, red: nat, green: nat, blue: nat, env: Env)
    ensures var image := if env.shot.Some? then env.shot else st.image;
            var o := Execute(st, Capture(focus, red, green, blue), env);
            && o.state == DevState(Off, image)
            && o.effects == [Fill(Color(red, green, blue)), Shoot, Fill(Off)]
            && (o.fault.None? <==> image.Some? && |image.value| < 0x100_0000)
            && (o.fault.None? ==> |o.out| == 3 && FromBytes(o.out) == |image.value|)
            && (o.fault.Some? ==> o.out == [])
  {
    var image := if env.shot.Some? then env.shot else st.image;
    if image.Some? {
      SizeFieldRange(|image.value|);
    }
  }

  /** FETCH_IMAGE streams the image file byte for byte, in order, with no prefix. */
  lemma FetchReply(st: DevState, env: Env)
    ensures var o := Execute(st, FetchImage, env);
            && o.state == st && o.effects == []
            && (st.image.Some? ==> o.fault.None? && o.out == st.image.value && |o.out| == |st.image.value|)
            && (st.image.None? ==> o.fault == Some(FileNotFound) && o.out == [])
  {
  }

  /** A value in 0..255 encodes as the one byte holding it. */
  lemma OneByte(n: int)
    requires 0 <= n < 256
    ensures ToBytes(n, 1) == Success([n])
  {
    var v := ToBytes(n, 1).value;
    assert v[..0] == [];
    assert FromBytes(v) == v[0];
    assert v == [v[0]];
  }

  /**
   * TELEMETRY writes temperature then load, one byte each. A temperature out
   * of 0..255 writes nothing; a load out of range writes the temperature byte only.
   */
  lemma TelemetryCases(st: DevState, env: Env)
    ensures var o := Execute(st, Telemetry, env);
            var (t, l) := (env.temperature, env.load);
            && o.state == st && o.effects == []
            && (0 <= t < 256 && 0 <= l < 256 ==> o.out == [t, l] && o.fault.None?)
            && (0 <= t < 256 && !(0 <= l < 256) ==> o.out == [t] && o.fault == Some(Overflow))
            && (!(0 <= t < 256) ==> o.out == [] && o.fault == Some(Overflow))
  {
    if 0 <= env.temperature < 256 {
      OneByte(env.temperature);
      if 0 <= env.load < 256 {
        OneByte(env.load);
      } else {
        assert ToBytes(env.load, 1).Failure?;
      }
    } else {
      assert ToBytes(env.temperature, 1).Failure?;
    }
  }

  /**
   * A fault never produces a reply frame of its own: before a fault the
   * device has written nothing, or (TELEMETRY only) the temperature byte.
   */
  lemma FaultsAreSilent(st: DevState, cmd: Command, env: Env)
    ensures var o := Execute(st, cmd, env);
            o.fault.Some? ==> o.out == [] || (cmd == Telemetry && o.out == [env.temperature])
  {
    match cmd
    case Capture(f, r, g, b) => CaptureReply(st, f, r, g, b, env);
    case Telemetry => TelemetryCases(st, env);
    case _ =>
  }

  /**
   * After a successful CAPTURE, FETCH_IMAGE streams exactly as many bytes as
   * the CAPTURE reply announced: the bytes of the image it took.
   */
  lemma CaptureThenFetch(st: DevState, focus: nat, red: nat, green: nat, blue: nat, env: Env, env': Env)
    requires Execute(st, Capture(focus, red, green, blue), env).fault.None?
    ensures var o := Execute(st, Capture(focus, red, green, blue), env);
            var o' := Execute(o.state, FetchImage, env');
            && o'.fault.None?
            && |o'.out| == FromBytes(o.out)
            && o'.out == (if env.shot.Some? then env.shot.value else st.image.value)
  {
    CaptureReply(st, focus, red, green, blue, env);
  }

  /**
   * The loop goes straight back to the opcode read: a quiet read in front of
   * the input changes nothing in any number of later cycles.
   */
  lemma QuietReadInvisible(st: DevState, r: ReadResult, rx: seq<ReadResult>, env: Env, envs: seq<Env>)
    requires Quiet(r)
    ensures var a := Steps(st, [r] + rx, [env] + envs);
            var b := Steps(st, rx, envs);
            && a.state == b.state && a.rx == b.rx && a.out == b.out
            && a.effects == b.effects && a.faults == [None] + b.faults
  {
    QuietCycle(st, [r] + rx, env);
    assert ([r] + rx)[1..] == rx;
    LoopResumes(st, [r] + rx, env, envs);
    var b := Steps(st, rx, envs);
    assert [] + b.out == b.out && [] + b.effects == b.effects;
  }

  /**
   * The loop resumes at the opcode read after every cycle, whether its
   * handler raised or not: the later cycles run on the state and the reads
   * the first one left, and their output, effects and faults follow its own.
   */
  lemma {:induction false} LoopResumes(st: DevState, rx: seq<ReadResult>, env: Env, envs: seq<Env>)
    ensures var c := Cycle(st, rx, env);
            var a := Steps(st, rx, [env] + envs);
            var b := Steps(c.0.state, c.1, envs);
            && a.state == b.state && a.rx == b.rx && a.out == c.0.out + b.out
            && a.effects == c.0.effects + b.effects && a.faults == [c.0.fault] + b.faults
    decreases |envs|
  {
    var c := Cycle(st, rx, env);
    if envs == [] {
      assert ([env] + envs)[..0] == [];
      assert [env] + envs == [env];
      ExtendOf(Trace(st, rx, [], [], []), env, c);
      assert [] + c.0.out == c.0.out + [] && [] + c.0.effects == c.0.effects + [];
    } else {
      var n := |envs|;
      var e := envs[n - 1];
      var pa := Steps(st, rx, ([env] + envs)[..n]);
      var pb := Steps(c.0.state, c.1, envs[..n - 1]);
      assert ([env] + envs)[..n] == [env] + envs[..n - 1];
      assert ([env] + envs)[n] == e;
      LoopResumes(st, rx, env, envs[..n - 1]);
      var d := Cycle(pb.state, pb.rx, e);
      ExtendOf(pa, e, d);
      ExtendOf(pb, e, d);
      ConcatAssoc(c.0.out, pb.out, d.0.out);
      ConcatAssoc(c.0.effects, pb.effects, d.0.effects);
      ConcatAssoc([c.0.fault], pb.faults, [d.0.fault]);
    }
  }

  /** The opcode read selects the handler: 0x01 runs FETCH_IMAGE and 0x02 TELEMETRY, each after one read. */
  lemma OpcodeDispatch(st: DevState, rx: seq<ReadResult>, env: Env)
    ensures rx != [] && rx[0] == Data(FETCH_IMAGE) ==> Cycle(st, rx, env) == (Execute(st, FetchImage, env), rx[1..])
    ensures rx != [] && rx[0] == Data(TELEMETRY) ==> Cycle(st, rx, env) == (Execute(st, Telemetry, env), rx[1..])
  {
  }


  /** One more cycle after `envs`. */
  lemma StepsSnoc(st: DevState, rx: seq<ReadResult>, envs: seq<Env>, env: Env)
    ensures Steps(st, rx, envs + [env]) == Extend(Steps(st, rx, envs), env)
  {
    assert (envs + [env])[..|envs|] == envs;
  }

  /** Extending a trace only depends on its state and remaining reads. */
  lemma ExtendOf(t: Trace, env: Env, c: (Outcome, seq<ReadResult>))
    requires c == Cycle(t.state, t.rx, env)
    ensures Extend(t, env) == Trace(c.0.state, c.1, t.out + c.0.out, t.effects + c.0.effects, t.faults + [c.0.fault])
  {
  }


  /** The device: its serial port, LED strip and image file, updated in place. */
  class Device {
    /** What the port's next 1-byte reads return. */
    var rx: seq<ReadResult>
    /** Every byte written to the port so far. */
    var tx: seq<uint8>
    /** The colour the LED strip shows. */
    var led: Color
    /** The image file's contents; None while there is no file. */
    var image: Option<seq<uint8>>
    /** Every LED fill and camera run, in order. */
    ghost var effects: seq<Effect>

    function State(): DevState
      reads this
    {
      DevState(led, image)
    }

    constructor (script: seq<ReadResult>, stored: Option<seq<uint8>>)
      ensures rx == script && tx == [] && State() == DevState(Off, stored) && effects == []
    {
      rx := script;
      tx := [];
      led := Off;
      image := stored;
      effects := [];
    }

    /** `ser.read(1)`. */
    method ReadByte() returns (data: seq<uint8>)
      modifies this`rx
      ensures data == AsBytes(Next(old(rx)).0) && rx == Next(old(rx)).1
    {
      if rx == [] {
        data := [];
      } else {
        data := AsBytes(rx[0]);
        rx := rx[1..];
      }
    }

    /** `ser.write(bs)`. */
    method Write(bs: seq<uint8>)
      modifies this`tx
      ensures tx == old(tx) + bs
    {
      tx := tx + bs;
    }

    /** `take_pic(f, r, g, b)`; the focus only reaches a log line in the source. */
    method TakePic(f: nat, r: nat, g: nat, b: nat, shot: Option<seq<uint8>>) returns (size: Result<nat, Fault>)
      modifies this`led, this`image, this`effects
      ensures var (st, eff, res) := TakePicture(old(State()), r, g, b, shot);
              State() == st && effects == old(effects) + eff && size == res
    {
      led := Color(r, g, b);
      effects := effects + [Fill(led)];
      effects := effects + [Shoot];
      if shot.Some? {
        image := shot;
      }
      led := Off;
      effects := effects + [Fill(Off)];
      if image.None? {
        return Failure(FileNotFound);
      }
      size := Success(|image.value|);
    }

    /** `get_image`: one write per byte of the image file. */
    method GetImage() returns (fault: Option<Fault>)
      modifies this`tx
      ensures var (bytes, fault') := ImageStream(State());
              tx == old(tx) + bytes && fault == fault'
    {
      if image.None? {
        return Some(FileNotFound);
      }
      var file := image.value;
      for i := 0 to |file|
        invariant tx == old(tx) + file[..i]
      {
        Write([file[i]]);
      }
      assert file[..|file|] == file;
      fault := None;
    }

    /** `get_telemetry`, with the sensors' integer readings as parameters. */
    method GetTelemetry(cpuTemp: int, cpuLoad: int) returns (fault: Option<Fault>)
      modifies this`tx
      ensures var (bytes, fault') := TelemetryReply(cpuTemp, cpuLoad);
              tx == old(tx) + bytes && fault == fault'
    {
      var inBytes := ToBytes(cpuTemp, 1);
      if inBytes.Failure? {
        return Some(Overflow);
      }
      Write(inBytes.value);
      inBytes := ToBytes(cpuLoad, 1);
      if inBytes.Failure? {
        return Some(Overflow);
      }
      Write(inBytes.value);
      fault := None;
    }

    /** One pass of the body of `main`'s loop, the `try`/`except` included. */
    method Step(env: Env) returns (fault: Option<Fault>)
      modifies this`rx, this`tx, this`led, this`image, this`effects
      ensures var (o, rest) := Cycle(old(State()), old(rx), env);
              && rx == rest && State() == o.state && tx == old(tx) + o.out
              && effects == old(effects) + o.effects && fault == o.fault
    {
      var received := ReadByte();
      if received == [CAPTURE] {
        var f := ReadByte();
        var fv := FromBytes(f);
        var r := ReadByte();
        var rv := FromBytes(r);
        var g := ReadByte();
        var gv := FromBytes(g);
        var b := ReadByte();
        var bv := FromBytes(b);
        var size := TakePic(fv, rv, gv, bv, env.shot);
        if size.Failure? {
          return Some(size.error);
        }
        var inBytes := ToBytes(size.value, 3);
        if inBytes.Failure? {
          return Some(Overflow);
        }
        Write(inBytes.value);
        fault := None;
      } else if received == [FETCH_IMAGE] {
        fault := GetImage();
      } else if received == [TELEMETRY] {
        fault := GetTelemetry(env.temperature, env.load);
      } else {
        fault := None;
      }
    }

    /** `main`: `|envs|` cycles of its endless loop; returns the fault each cycle logged. */
    method Run(envs: seq<Env>) returns (faults: seq<Option<Fault>>)
      modifies this`rx, this`tx, this`led, this`image, this`effects
      ensures var t := Steps(old(State()), old(rx), envs);
              && State() == t.state && rx == t.rx && tx == old(tx) + t.out
              && effects == old(effects) + t.effects && faults == t.faults
    {
      faults := [];
      ghost var t := Trace(State(), rx, [], [], []);
      var i := 0;
      while i < |envs|
        invariant 0 <= i <= |envs|
        invariant t == Steps(old(State()), old(rx), envs[..i])
        invariant State() == t.state && rx == t.rx && tx == old(tx) + t.out
        invariant effects == old(effects) + t.effects && faults == t.faults
      {
        assert envs[..i + 1][..i] == envs[..i];
        ghost var c := Cycle(t.state, t.rx, envs[i]);
        var fault := Step(envs[i]);
        ConcatAssoc(old(tx), t.out, c.0.out);
        ConcatAssoc(old(effects), t.effects, c.0.effects);
        faults := faults + [fault];
        t := Extend(t, envs[i]);
        i := i + 1;
      }
      assert envs[..|envs|] == envs;
    }
  }
}
