/**
 * The ground client (scp2_usage.py): it writes a request frame, then polls
 * the port until a read returns something, and decodes what it got.
 *
 * The port is modelled as the sequence of what its successive reads find
 * waiting: an empty chunk is a read that timed out. A read of `n` bytes that
 * finds more than `n` takes the first `n` and leaves the rest for the next
 * read, as a serial port's input buffer does.
 */
module Host {
  import opened Wrappers
  import opened Codec
  import opened Sequences

  /** The request for a picture: opcode 0x00, focus 0xA0, red 0xA1, green 0xA2, blue 0x12. */
  const TAKE_IMAGE_FRAME: seq<uint8> := [0x00, 0xA0, 0xA1, 0xA2, 0x12]
  const FETCH_IMAGE_FRAME: seq<uint8> := [0x01]
  const TELEMETRY_FRAME: seq<uint8> := [0x02]

  /** The bytes the chunks carry, in arrival order. */
  function Flatten(rx: seq<seq<uint8>>): seq<uint8>
  {
    if rx == [] then [] else rx[0] + Flatten(rx[1..])
  }

  /**
   * `ser.read(n)`: at most `n` bytes of the next chunk; `b''` when nothing is
   * waiting, and always for `n == 0`.
   */
  function Take(rx: seq<seq<uint8>>, n: nat): (p: (seq<uint8>, seq<seq<uint8>>))
    ensures |p.0| <= n
    ensures p.0 == [] <==> n == 0 || rx == [] || rx[0] == []
  {
    if n == 0 || rx == [] then ([], rx)
    else if |rx[0]| <= n then (rx[0], rx[1..])
    else
      (rx[0][..n], [rx[0][n..]] + rx[1..])
  }

  /** A read loses and reorders no byte: what it returns, then what is left, is what was waiting. */
  lemma TakeConserves(rx: seq<seq<uint8>>, n: nat)
    ensures var (d, rest) := Take(rx, n); d + Flatten(rest) == Flatten(rx)
  {
    if n == 0 || rx == [] {
      assert Take(rx, n) == ([], rx);
    } else if |rx[0]| <= n {
      assert Take(rx, n) == (rx[0], rx[1..]);
    } else {
      var head, tail := rx[0][..n], rx[0][n..];
      var rest := [tail] + rx[1..];
      assert Take(rx, n) == (head, rest);
      assert rest[0] == tail && rest[1..] == rx[1..];
      assert Flatten(rest) == tail + Flatten(rx[1..]);
      SplitAt(rx[0], n);
      ConcatAssoc(head, tail, Flatten(rx[1..]));
    }
  }

  /** The bytes a poll returned, or none. */
  function Got(d: Option<seq<uint8>>): seq<uint8>
  {
    if d.Some? then d.value else []
  }

  /**
   * The retry loop of `wait4result`, with at most `left` further reads:
   * `data` is what the last read returned.
   */
  function Retry(data: seq<uint8>, rx: seq<seq<uint8>>, n: nat, left: nat): (p: (Option<seq<uint8>>, seq<seq<uint8>>))
    requires |data| <= n
    ensures p.0.Some? ==> 1 <= |p.0.value| <= n
    decreases left
  {
    if data != [] then (Some(data), rx)
    else if left == 0 then (None, rx)
    else
      var (d, rest) := Take(rx, n);
      Retry(d, rest, n, left - 1)
  }

  /** The retry loop loses and reorders no byte either. */
  lemma {:induction false} RetryConserves(data: seq<uint8>, rx: seq<seq<uint8>>, n: nat, left: nat)
    requires |data| <= n
    ensures var (d, rest) := Retry(data, rx, n, left); Got(d) + Flatten(rest) == data + Flatten(rx)
    decreases left
  {
    if data == [] && left > 0 {
      var (d, rest) := Take(rx, n);
      TakeConserves(rx, n);
      RetryConserves(d, rest, n, left - 1);
      assert data + Flatten(rx) == Flatten(rx);
    }
  }

  /**
   * `wait4result`'s reads: one read of `n` bytes, repeated while it comes back
   * empty, at most `retries` more times. None means it would still be polling.
   */
  function Poll(rx: seq<seq<uint8>>, n: nat, retries: nat): (p: (Option<seq<uint8>>, seq<seq<uint8>>))
    ensures p.0.Some? ==> 1 <= |p.0.value| <= n
  {
    var (d, rest) := Take(rx, n);
    Retry(d, rest, n, retries)
  }

  /** A poll returns the first bytes waiting and leaves the rest, in order. */
  lemma PollConserves(rx: seq<seq<uint8>>, n: nat, retries: nat)
    ensures var (d, rest) := Poll(rx, n, retries); Got(d) + Flatten(rest) == Flatten(rx)
  {
    var (d, rest) := Take(rx, n);
    TakeConserves(rx, n);
    RetryConserves(d, rest, n, retries);
  }

  /** The timed-out reads that Poll skips: `k` empty chunks. */
  function Silence(k: nat): seq<seq<uint8>>
  {
    seq(k, i => [])
  }

  /**
   * The poll returns the first read that is not empty: everything in the
   * first chunk that holds data, up to `n` bytes, and possibly fewer than `n`;
   * what a longer chunk holds beyond `n` bytes is the next read.
   */
  lemma {:induction false} PollFirstData(j: nat, c: seq<uint8>, rest: seq<seq<uint8>>, n: nat, retries: nat)
    requires c != [] && n >= 1 && j <= retries
    ensures Poll(Silence(j) + [c] + rest, n, retries)
            == if |c| <= n then (Some(c), rest) else (Some(c[..n]), [c[n..]] + rest)
    decreases j
  {
    var rx := Silence(j) + [c] + rest;
    if j == 0 {
      assert rx == [c] + rest;
      assert rx[0] == c && rx[1..] == rest;
    } else {
      assert rx[0] == [];
      assert rx[1..] == Silence(j - 1) + [c] + rest;
      PollFirstData(j - 1, c, rest, n, retries - 1);
      RetryAfterTimeout(rx, n, retries);
    }
  }

  /** A read that returns data, after `wait` reads that timed out. */
  datatype Arrival = Arrival(wait: nat, bytes: seq<uint8>)

  /** The port's reads when the data arrives as `arr` says. */
  function Paced(arr: seq<Arrival>): seq<seq<uint8>>
  {
    if arr == [] then [] else Silence(arr[0].wait) + [arr[0].bytes] + Paced(arr[1..])
  }

  /** Every piece of data arrives within the timeouts `wait4result` sits through. */
  predicate InTime(arr: seq<Arrival>, retries: nat)
  {
    forall i | 0 <= i < |arr| :: arr[i].wait <= retries && arr[i].bytes != []
  }

  /** The arrivals left after a read of `n` bytes: the rest of a longer chunk is read at once. */
  function AfterRead(arr: seq<Arrival>, n: nat): seq<Arrival>
    requires arr != []
  {
    var c := arr[0].bytes;
    if |c| <= n then arr[1..] else [Arrival(0, c[n..])] + arr[1..]
  }

  /** What is left after a read still arrives in time. */
  lemma AfterReadInTime(arr: seq<Arrival>, n: nat, retries: nat)
    requires arr != [] && InTime(arr, retries)
    ensures InTime(AfterRead(arr, n), retries)
  {
    var left := AfterRead(arr, n);
    if |arr[0].bytes| > n {
      assert forall i | 1 <= i < |left| :: left[i] == arr[i];
    } else {
      assert forall i | 0 <= i < |left| :: left[i] == arr[i + 1];
    }
  }

  /**
   * A poll over data that arrives in time returns the first piece, up to `n`
   * bytes, and what is left still arrives in time.
   */
  lemma PacedPoll(arr: seq<Arrival>, n: nat, retries: nat)
    requires arr != [] && n >= 1 && InTime(arr, retries)
    ensures var c := arr[0].bytes;
            && Poll(Paced(arr), n, retries) == (Some(if |c| <= n then c else c[..n]), Paced(AfterRead(arr, n)))
            && InTime(AfterRead(arr, n), retries)
  {
    var c := arr[0].bytes;
    assert arr[0].wait <= retries && c != [];
    assert Paced(arr) == Silence(arr[0].wait) + [c] + Paced(arr[1..]);
    PollFirstData(arr[0].wait, c, Paced(arr[1..]), n, retries);
    if |c| > n {
      var left := AfterRead(arr, n);
      assert left[0] == Arrival(0, c[n..]) && left[1..] == arr[1..];
      assert Silence(0) == [];
      assert Paced(left) == [c[n..]] + Paced(arr[1..]);
    }
    AfterReadInTime(arr, n, retries);
  }

  /** A timed-out first read just costs one attempt. */
  lemma RetryAfterTimeout(rx: seq<seq<uint8>>, n: nat, retries: nat)
    requires rx != [] && rx[0] == [] && n >= 1 && retries >= 1
    ensures Poll(rx, n, retries) == Poll(rx[1..], n, retries - 1)
  {
  }

  /**
   * The poll gives up exactly when every read it may make times out: the
   * first `retries + 1` chunks are empty or absent.
   */
  lemma {:induction false} PollGivesUp(rx: seq<seq<uint8>>, n: nat, retries: nat)
    requires n >= 1
    ensures Poll(rx, n, retries).0.None? <==> forall i | 0 <= i <= retries && i < |rx| :: rx[i] == []
    decreases retries
  {
    if rx == [] {
      EmptyPortPoll(n, retries);
    } else if rx[0] != [] {
    } else if retries == 0 {
    } else {
      PollGivesUp(rx[1..], n, retries - 1);
      RetryAfterTimeout(rx, n, retries);
      assert forall i | 1 <= i <= retries && i < |rx| :: rx[i] == rx[1..][i - 1];
    }
  }

  /** With nothing arriving, every read times out. */
  lemma {:induction false} EmptyPortPoll(n: nat, retries: nat)
    ensures Poll([], n, retries) == (None, [])
    decreases retries
  {
    if retries > 0 {
      EmptyPortPoll(n, retries - 1);
    }
  }

  /**
   * As written, `wait4result(3, True)` decodes whatever the first successful
   * read returned: a size reply 00 30 39 (12345) whose first byte arrives on
   * its own decodes as 0, and leaves 30 39 waiting for the next command.
   */
  lemma SplitSizeReply(retries: nat)
    ensures var p := Poll([[0x00], [0x30, 0x39]], 3, retries);
            p.0 == Some([0x00]) && FromBytes(p.0.value) == 0 && p.1 == [[0x30, 0x39]]
  {
    assert FromBytes([0x00]) == FromBytes([]) * 256 + 0;
  }

  /** What the image loop of `get_image` has gathered: the file, whether it finished, the reads left. */
  datatype Gathered = Gathered(file: seq<uint8>, complete: bool, rest: seq<seq<uint8>>)

  /**
   * `count` one-byte polls, each appended to the file; the loop stops where a
   * poll would never return.
   */
  function Collect(rx: seq<seq<uint8>>, count: nat, retries: nat): (g: Gathered)
    ensures g.complete <==> |g.file| == count
    ensures |g.file| <= count
    decreases count
  {
    if count == 0 then Gathered([], true, rx)
    else
      var (d, rx1) := Poll(rx, 1, retries);
      if d.None? then Gathered([], false, rx1)
      else
        var g := Collect(rx1, count - 1, retries);
        Gathered(d.value + g.file, g.complete, g.rest)
  }

  /** The download loses and reorders no byte: the file, then the reads left, is what arrived. */
  lemma {:induction false} CollectConserves(rx: seq<seq<uint8>>, count: nat, retries: nat)
    ensures var g := Collect(rx, count, retries); g.file + Flatten(g.rest) == Flatten(rx)
    decreases count
  {
    if count > 0 {
      var (d, rx1) := Poll(rx, 1, retries);
      PollConserves(rx, 1, retries);
      if d.Some? {
        var g := Collect(rx1, count - 1, retries);
        CollectConserves(rx1, count - 1, retries);
        ConcatAssoc(d.value, g.file, Flatten(g.rest));
      }
    }
  }

  /** Bytes already in the file, followed by what the rest of the download gathers. */
  function Joined(prefix: seq<uint8>, g: Gathered): Gathered
  {
    Gathered(prefix + g.file, g.complete, g.rest)
  }

  /** One poll of the download loop, seen from the bytes already in the file. */
  lemma JoinedStep(prefix: seq<uint8>, rx: seq<seq<uint8>>, count: nat, retries: nat)
    requires count > 0
    ensures var (d, rx1) := Poll(rx, 1, retries);
            Joined(prefix, Collect(rx, count, retries))
            == if d.None? then Gathered(prefix, false, rx1) else Joined(prefix + d.value, Collect(rx1, count - 1, retries))
  {
    var (d, rx1) := Poll(rx, 1, retries);
    if d.Some? {
      ConcatAssoc(prefix, d.value, Collect(rx1, count - 1, retries).file);
    } else {
      assert prefix + [] == prefix;
    }
  }

  /**
   * The file is the bytes that arrived, in arrival order: a complete download
   * is exactly the first `count` bytes of the input.
   */
  lemma ImageIsArrivalOrder(rx: seq<seq<uint8>>, count: nat, retries: nat)
    ensures var g := Collect(rx, count, retries);
            g.complete ==> |Flatten(rx)| >= count && g.file == Flatten(rx)[..count]
  {
    var g := Collect(rx, count, retries);
    CollectConserves(rx, count, retries);
    assert Flatten(rx)[..|g.file|] == g.file;
  }

  /**
   * When every byte arrives within the timeouts each poll sits through, and
   * enough of them arrive, the download completes.
   */
  lemma {:induction false} PacedStreamCompletes(arr: seq<Arrival>, count: nat, retries: nat)
    requires InTime(arr, retries) && |Flatten(Paced(arr))| >= count
    ensures Collect(Paced(arr), count, retries).complete
    decreases count
  {
    if count > 0 {
      assert arr != [];
      PacedPoll(arr, 1, retries);
      PollConserves(Paced(arr), 1, retries);
      PacedStreamCompletes(AfterRead(arr, 1), count - 1, retries);
    }
  }

  /** What one poll decodes to with `to_int` true, None while still polling. */
  function PollInt(rx: seq<seq<uint8>>, n: nat, retries: nat): (p: (Option<nat>, seq<seq<uint8>>))
    ensures p.0.Some? ==> p.0.value < Pow256(n)
    ensures n >= 1 ==> (p.0.None? <==> forall i | 0 <= i <= retries && i < |rx| :: rx[i] == [])
  {
    var (d, rest) := Poll(rx, n, retries);
    var v := if d.Some? then (Pow256Monotone(|d.value|, n); Some(FromBytes(d.value))) else None;
    if n >= 1 then (PollGivesUp(rx, n, retries); (v, rest)) else (v, rest)
  }

  /** `get_telemetry`'s two one-byte polls: temperature, then load. */
  function ReadTelemetry(rx: seq<seq<uint8>>, retries: nat): (p: (Option<nat>, Option<nat>, seq<seq<uint8>>))
    ensures p.0.None? ==> p.1.None?
    ensures p.0.Some? ==> p.0.value < 256
    ensures p.1.Some? ==> p.1.value < 256
  {
    assert Pow256(1) == 256;
    var (t, rx1) := PollInt(rx, 1, retries);
    if t.None? then (None, None, rx1)
    else
      var (l, rx2) := PollInt(rx1, 1, retries);
      (t, l, rx2)
  }

  /**
   * Temperature and load are the first two bytes that arrive, in that order,
   * each decoded as an unsigned byte.
   */
  lemma TelemetryIsFirstTwoBytes(rx: seq<seq<uint8>>, retries: nat)
    ensures var (t, l, rest) := ReadTelemetry(rx, retries);
            var bytes := Flatten(rx);
            && (t.Some? ==> |bytes| >= 1 && t == Some(bytes[0]))
            && (l.Some? ==> |bytes| >= 2 && l == Some(bytes[1]))
  {
    var (t, rx1) := Poll(rx, 1, retries);
    PollConserves(rx, 1, retries);
    if t.Some? {
      SingleByte(t.value);
      var (l, rx2) := Poll(rx1, 1, retries);
      PollConserves(rx1, 1, retries);
      if l.Some? {
        SingleByte(l.value);
        ConcatAssoc(t.value, l.value, Flatten(rx2));
        assert Flatten(rx) == t.value + l.value + Flatten(rx2);
      }
    }
  }

  /** A one-byte read decodes to its byte. */
  lemma SingleByte(bs: seq<uint8>)
    requires |bs| == 1
    ensures FromBytes(bs) == bs[0]
  {
    assert bs[..0] == [];
  }

  /** A reply as `wait4result` hands it back: raw bytes, or their unsigned big-endian value. */
  datatype Reply = Raw(bytes: seq<uint8>) | Int(value: nat)

  /** The client: its serial port and the image file it writes. */
  class Host {
    /** What the port's successive reads find waiting. */
    var rx: seq<seq<uint8>>
    /** Every byte written to the port so far. */
    var tx: seq<uint8>
    /** The downloaded image file. */
    var imageFile: seq<uint8>

    constructor (script: seq<seq<uint8>>)
      ensures rx == script && tx == [] && imageFile == []
    {
      rx := script;
      tx := [];
      imageFile := [];
    }

    /** `ser.read(n)`. */
    method Read(n: nat) returns (data: seq<uint8>)
      modifies this`rx
      ensures (data, rx) == Take(old(rx), n)
    {
      if n == 0 || rx == [] {
        data := [];
      } else if |rx[0]| <= n {
        data := rx[0];
        rx := rx[1..];
      } else {
        data := rx[0][..n];
        rx := [rx[0][n..]] + rx[1..];
      }
    }

    /** `ser.write(bs)`. */
    method Write(bs: seq<uint8>)
      modifies this`tx
      ensures tx == old(tx) + bs
    {
      tx := tx + bs;
    }

    /**
     * `wait4result(bytes_count, to_int)`, giving up after `retries` retries:
     * the first non-empty read, decoded as an unsigned integer when `toInt`
     * holds and returned unchanged otherwise.
     */
    method Wait4Result(bytesCount: nat, toInt: bool, retries: nat) returns (r: Option<Reply>)
      modifies this`rx
      ensures var (d, rest) := Poll(old(rx), bytesCount, retries);
              && rx == rest
              && (d.None? ==> r.None?)
              && (d.Some? && toInt ==> r == Some(Int(FromBytes(d.value))))
              && (d.Some? && !toInt ==> r == Some(Raw(d.value)))
    {
      var data := Read(bytesCount);
      var tries := 0;
      while data == [] && tries < retries
        invariant 0 <= tries <= retries && |data| <= bytesCount
        invariant Retry(data, rx, bytesCount, retries - tries) == Poll(old(rx), bytesCount, retries)
      {
        data := Read(bytesCount);
        tries := tries + 1;
      }
      if data == [] {
        return None;
      }
      if toInt {
        r := Some(Int(FromBytes(data)));
      } else {
        r := Some(Raw(data));
      }
    }

    /** `take_image`: sends the request frame, returns the decoded 3-byte size. */
    method TakeImage(retries: nat) returns (size: Option<nat>)
      modifies this`tx, this`rx
      ensures tx == old(tx) + TAKE_IMAGE_FRAME
      ensures (size, rx) == PollInt(old(rx), 3, retries)
    {
      Write([0x00]);
      Write([0xA0]);
      Write([0xA1]);
      Write([0xA2]);
      Write([0x12]);
      var r := Wait4Result(3, true, retries);
      if r.None? {
        size := None;
      } else {
        size := Some(r.value.value);
      }
    }

    /**
     * `get_image(file_size)`: sends opcode 0x01, empties the image file, then
     * appends `fileSize` one-byte polls to it. False where a poll gives up.
     */
    method GetImage(fileSize: nat, retries: nat) returns (complete: bool)
      modifies this`tx, this`rx, this`imageFile
      ensures tx == old(tx) + FETCH_IMAGE_FRAME
      ensures Collect(old(rx), fileSize, retries) == Gathered(imageFile, complete, rx)
    {
      Write([0x01]);
      imageFile := [];
      ghost var total := Collect(rx, fileSize, retries);
      assert total == Joined(imageFile, total);
      var i := 0;
      while i < fileSize
        invariant 0 <= i <= fileSize && tx == old(tx) + FETCH_IMAGE_FRAME
        invariant total == Joined(imageFile, Collect(rx, fileSize - i, retries))
      {
        ghost var rx0 := rx;
        var s := Wait4Result(1, false, retries);
        JoinedStep(imageFile, rx0, fileSize - i, retries);
        if s.None? {
          return false;
        }
        imageFile := imageFile + s.value.bytes;
        i := i + 1;
      }
      complete := true;
    }

    /** `get_telemetry`: sends opcode 0x02, returns the decoded temperature and load. */
    method GetTelemetry(retries: nat) returns (cpuTemp: Option<nat>, cpuLoad: Option<nat>)
      modifies this`tx, this`rx
      ensures tx == old(tx) + TELEMETRY_FRAME
      ensures (cpuTemp, cpuLoad, rx) == ReadTelemetry(old(rx), retries)
    {
      Write([0x02]);
      cpuLoad := None;
      var r := Wait4Result(1, true, retries);
      if r.None? {
        return None, None;
      }
      cpuTemp := Some(r.value.value);
      r := Wait4Result(1, true, retries);
      if r.Some? {
        cpuLoad := Some(r.value.value);
      }
    }
  }

}
