/**
 * The two halves of the link together: what the client sends is what the
 * dispatcher decodes, and what the dispatcher replies is what the client
 * decodes.
 */
module EndToEnd {
  import opened Wrappers
  import opened Codec
  import opened Device
  import opened Host

  /** The device's reads when the bytes `bs` arrive in time, one per read. */
  function Arrivals(bs: seq<uint8>): seq<ReadResult>
  {
    seq(|bs|, i requires 0 <= i < |bs| => Data(bs[i]))
  }

  /**
   * The client's picture request reaches the dispatcher as CAPTURE with focus
   * 160, red 0xA1, green 0xA2, blue 0x12, using up exactly its five bytes; a
   * 3-byte size reply that reaches the client in one read, after at most
   * `retries` reads that timed out while the camera ran, decodes to the
   * length of the image the camera produced.
   */
  lemma CaptureRoundTrip(st: DevState, img: seq<uint8>, env: Env, rx: seq<ReadResult>,
                         wait: nat, later: seq<seq<uint8>>, retries: nat)
    requires env.shot == Some(img) && |img| < 0x100_0000 && wait <= retries
    ensures var (cmd, rest) := Parse(Arrivals(TAKE_IMAGE_FRAME) + rx);
            var o := Execute(st, cmd, env);
            && cmd == Capture(160, 0xA1, 0xA2, 0x12) && rest == rx
            && o.fault.None? && o.state.image == Some(img)
            && PollInt(Silence(wait) + [o.out] + later, 3, retries) == (Some(|img|), later)
  {
    var wire := Arrivals(TAKE_IMAGE_FRAME) + rx;
    CaptureFields(wire);
    assert Drop(wire, 5) == rx;
    var o := Execute(st, Capture(160, 0xA1, 0xA2, 0x12), env);
    CaptureReply(st, 160, 0xA1, 0xA2, 0x12, env);
    PollFirstData(wait, o.out, later, 3, retries);
  }

  /**
   * The client's one-byte FETCH_IMAGE and TELEMETRY frames reach the
   * dispatcher as those commands, and each uses up exactly its one byte.
   */
  lemma RequestDispatch(st: DevState, env: Env, rx: seq<ReadResult>)
    ensures Cycle(st, Arrivals(FETCH_IMAGE_FRAME) + rx, env) == (Execute(st, FetchImage, env), rx)
    ensures Cycle(st, Arrivals(TELEMETRY_FRAME) + rx, env) == (Execute(st, Telemetry, env), rx)
  {
    var f, t := Arrivals(FETCH_IMAGE_FRAME) + rx, Arrivals(TELEMETRY_FRAME) + rx;
    assert f[0] == Data(FETCH_IMAGE) && f[1..] == rx;
    assert t[0] == Data(TELEMETRY) && t[1..] == rx;
    OpcodeDispatch(st, f, env);
    OpcodeDispatch(st, t, env);
  }

  /**
   * After a successful CAPTURE, the client's download of as many bytes as
   * the reply announced yields the image the camera produced, however the
   * bytes are grouped into reads and whatever timeouts come before each
   * read, as long as no poll runs out of retries.
   */
  lemma FetchRoundTrip(st: DevState, c: Command, env: Env, env': Env,
                       arr: seq<Arrival>, retries: nat)
    requires c.Capture? && Execute(st, c, env).fault.None?
    requires InTime(arr, retries)
    requires Flatten(Paced(arr)) == Execute(Execute(st, c, env).state, FetchImage, env').out
    ensures var o := Execute(st, c, env);
            var g := Collect(Paced(arr), FromBytes(o.out), retries);
            g.complete && g.file == Execute(o.state, FetchImage, env').out
  {
    var o := Execute(st, c, env);
    var bytes := Flatten(Paced(arr));
    CaptureThenFetch(st, c.focus, c.red, c.green, c.blue, env, env');
    PacedStreamCompletes(arr, FromBytes(o.out), retries);
    ImageIsArrivalOrder(Paced(arr), FromBytes(o.out), retries);
    assert bytes[..|bytes|] == bytes;
  }

  /**
   * A TELEMETRY reply for readings in 0..255 gives the client back the
   * temperature and the load, in that order, whether the two bytes arrive
   * together or apart, and whatever timeouts come before each read, as long
   * as no poll runs out of retries.
   */
  lemma TelemetryRoundTrip(st: DevState, env: Env, arr: seq<Arrival>, retries: nat)
    requires 0 <= env.temperature < 256 && 0 <= env.load < 256
    requires InTime(arr, retries)
    requires Flatten(Paced(arr)) == Execute(st, Telemetry, env).out
    ensures var (t, l, _) := ReadTelemetry(Paced(arr), retries);
            t == Some(env.temperature) && l == Some(env.load)
  {
    var rx := Paced(arr);
    TelemetryCases(st, env);
    TelemetryIsFirstTwoBytes(rx, retries);
    PacedStreamCompletes(arr, 2, retries);
    var (t, rx1) := Poll(rx, 1, retries);
    assert t.Some?;
    var (l, rx2) := Poll(rx1, 1, retries);
    assert Collect(rx, 2, retries).complete;
    assert l.Some?;
  }

  /** The three request frames of a session, as the device reads them. */
  lemma SessionWire(rx: seq<ReadResult>)
    ensures Arrivals(TAKE_IMAGE_FRAME + FETCH_IMAGE_FRAME + TELEMETRY_FRAME) + rx
            == [Data(0x00), Data(0xA0), Data(0xA1), Data(0xA2), Data(0x12), Data(0x01), Data(0x02)] + rx
  {
  }

  /** The session's first cycle: CAPTURE of a 12345-byte image replies 00 30 39. */
  lemma SessionCapture(st: DevState, img: seq<uint8>, w1: seq<ReadResult>)
    requires |img| == 12345
    ensures Cycle(st, [Data(0x00), Data(0xA0), Data(0xA1), Data(0xA2), Data(0x12)] + w1, Env(Some(img), 0, 0))
            == (Outcome(DevState(Off, Some(img)), [0x00, 0x30, 0x39], [Fill(Color(0xA1, 0xA2, 0x12)), Shoot, Fill(Off)], None), w1)
  {
    var wire := [Data(0x00), Data(0xA0), Data(0xA1), Data(0xA2), Data(0x12)] + w1;
    CaptureFields(wire);
    assert Drop(wire, 5) == w1;
    CaptureReply(st, 0xA0, 0xA1, 0xA2, 0x12, Env(Some(img), 0, 0));
    SizeExample();
  }

  /** The session's middle cycle: FETCH_IMAGE streams the stored image. */
  lemma SessionFetch(img: seq<uint8>, rx: seq<ReadResult>)
    ensures Cycle(DevState(Off, Some(img)), [Data(0x01)] + rx, Env(None, 0, 0))
            == (Outcome(DevState(Off, Some(img)), img, [], None), rx)
  {
    assert Drop([Data(0x01)] + rx, 1) == rx;
  }

  /** The session's last cycle: TELEMETRY with temperature 42 and load 37 replies 2A 25. */
  lemma SessionTelemetry(st: DevState, rx: seq<ReadResult>)
    ensures Cycle(st, [Data(0x02)] + rx, Env(None, 42, 37)) == (Outcome(st, [0x2A, 0x25], [], None), rx)
  {
    TelemetryCases(st, Env(None, 42, 37));
    assert Drop([Data(0x02)] + rx, 1) == rx;
  }

  /**
   * A session: CAPTURE of a 12345-byte image, FETCH_IMAGE, then TELEMETRY
   * with temperature 42 and load 37. The device writes 00 30 39, then the
   * image, then 2A 25, and logs no fault.
   */
  lemma Session(st: DevState, img: seq<uint8>, rx: seq<ReadResult>)
    requires |img| == 12345
    ensures var envs := [Env(Some(img), 0, 0), Env(None, 0, 0), Env(None, 42, 37)];
            var t := Steps(st, Arrivals(TAKE_IMAGE_FRAME + FETCH_IMAGE_FRAME + TELEMETRY_FRAME) + rx, envs);
            && t.out == [0x00, 0x30, 0x39] + img + [0x2A, 0x25] && t.faults == [None, None, None]
            && t.rx == rx && t.state == DevState(Off, Some(img))
  {
    var e0, e1, e2 := Env(Some(img), 0, 0), Env(None, 0, 0), Env(None, 42, 37);
    assert [e0] + [e1] == [e0, e1];
    assert [e0, e1] + [e2] == [e0, e1, e2];
    var w2 := [Data(0x02)] + rx;
    var w1 := [Data(0x01)] + w2;
    var wire := [Data(0x00), Data(0xA0), Data(0xA1), Data(0xA2), Data(0x12)] + w1;
    SessionWire(rx);
    assert wire == [Data(0x00), Data(0xA0), Data(0xA1), Data(0xA2), Data(0x12), Data(0x01), Data(0x02)] + rx;
    var s1 := DevState(Off, Some(img));

    var c0 := Cycle(st, wire, e0);
    SessionCapture(st, img, w1);
    var c1 := Cycle(s1, w1, e1);
    SessionFetch(img, w2);
    var c2 := Cycle(s1, w2, e2);
    SessionTelemetry(s1, rx);

    var t0 := Trace(st, wire, [], [], []);
    StepsSnoc(st, wire, [], e0);
    ExtendOf(t0, e0, c0);
    var t1 := Extend(t0, e0);
    StepsSnoc(st, wire, [e0], e1);
    ExtendOf(t1, e1, c1);
    var t2 := Extend(t1, e1);
    StepsSnoc(st, wire, [e0, e1], e2);
    ExtendOf(t2, e2, c2);
    var t3 := Extend(t2, e2);
    assert t1.out == [0x00, 0x30, 0x39] && t1.faults == [None];
    assert t2.out == [0x00, 0x30, 0x39] + img && t2.faults == [None, None];
    assert t3.out == [0x00, 0x30, 0x39] + img + [0x2A, 0x25] && t3.faults == [None, None, None];
  }
}
