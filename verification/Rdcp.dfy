/** The datagram transport RDCP (RdcpSocket.hh, RdcpProtocol.cpp, IConnectedSocket.cpp and
    the buffers of Buffer.h): a sender that repeats its latest payload under a growing index,
    a network that loses, repeats and reorders, and a receiver that keeps only what is newer
    than anything it has seen. */
module Rdcp {
  import opened Memory
  import opened Wrappers
  import Masks

  type Byte = n: nat | n < 256

  const W8 := 0x100
  const W16 := 0x1_0000
  const W32 := 0x1_0000_0000
  const W64 := 0x1_0000_0000_0000_0000

  // ------------------------------------------------------------ the header

  datatype Header = Header(signature: nat, responsePort: nat, indexH: nat, indexL: nat) {
    predicate Fits() { signature < W16 && responsePort < W16 && indexH < W32 && indexL < W32 }
  }

  const HEADER_SIZE := 12
  const CLIENT_TO_SERVER := 0xC0DE
  const SERVER_TO_CLIENT := 0x7EED

  /** htons */
  function Put16(n: nat): seq<Byte>
    requires n < W16
  {
    [n / W8, n % W8]
  }

  function Get16(s: seq<Byte>): (n: nat)
    requires |s| == 2
    ensures n < W16
  {
    s[0] * W8 + s[1]
  }

  /** htonl */
  function Put32(n: nat): seq<Byte>
    requires n < W32
  {
    Put16(n / W16) + Put16(n % W16)
  }

  function Get32(s: seq<Byte>): (n: nat)
    requires |s| == 4
    ensures n < W32
  {
    Get16(s[..2]) * W16 + Get16(s[2..])
  }

  lemma RoundTrip32(n: nat)
    requires n < W32
    ensures Get32(Put32(n)) == n
  {
    var s := Put32(n);
    assert s[..2] == Put16(n / W16) && s[2..] == Put16(n % W16);
  }

  lemma RoundTrip16Back(s: seq<Byte>)
    requires |s| == 2
    ensures Put16(Get16(s)) == s
  {
    Masks.DivUnique(Get16(s), s[0], s[1], W8);
  }

  lemma RoundTrip32Back(s: seq<Byte>)
    requires |s| == 4
    ensures Put32(Get32(s)) == s
  {
    hide Put16, Get16;
    var high, low := Get16(s[..2]), Get16(s[2..]);
    assert Get32(s) == high * W16 + low;
    Masks.DivUnique(Get32(s), high, low, W16);
    RoundTrip16Back(s[..2]);
    RoundTrip16Back(s[2..]);
    assert s == s[..2] + s[2..];
  }

  /** The header on the wire: every field with its high byte first. */
  function Encode(h: Header): (s: seq<Byte>)
    requires h.Fits()
    ensures |s| == HEADER_SIZE
    ensures s[0] * W8 + s[1] == h.signature && s[2] * W8 + s[3] == h.responsePort
    ensures ((s[4] * W8 + s[5]) * W8 + s[6]) * W8 + s[7] == h.indexH
    ensures ((s[8] * W8 + s[9]) * W8 + s[10]) * W8 + s[11] == h.indexL
  {
    Put16(h.signature) + Put16(h.responsePort) + Put32(h.indexH) + Put32(h.indexL)
  }

  function Decode(s: seq<Byte>): (h: Header)
    requires |s| == HEADER_SIZE
    ensures h.Fits()
  {
    Header(Get16(s[..2]), Get16(s[2..4]), Get32(s[4..8]), Get32(s[8..]))
  }

  lemma HeaderRoundTrip(h: Header)
    requires h.Fits()
    ensures Decode(Encode(h)) == h
  {
    hide Put32, Get32;
    RoundTrip32(h.indexH);
    RoundTrip32(h.indexL);
    var s := Encode(h);
    assert s[..2] == Put16(h.signature) && s[2..4] == Put16(h.responsePort);
    assert s[4..8] == Put32(h.indexH) by { assert |Put32(h.indexH)| == 4 by { Lengths(h); } }
    assert s[8..] == Put32(h.indexL) by { Lengths(h); }
  }

  lemma Lengths(h: Header)
    requires h.Fits()
    ensures |Put32(h.indexH)| == |Put32(h.indexL)| == 4
  {}

  lemma WireRoundTrip(s: seq<Byte>)
    requires |s| == HEADER_SIZE
    ensures Encode(Decode(s)) == s
  {
    hide Put32, Get32;
    RoundTrip32Back(s[4..8]);
    RoundTrip32Back(s[8..]);
    assert s == s[..2] + s[2..4] + s[4..8] + s[8..];
    assert Put16(Get16(s[..2])) == s[..2] && Put16(Get16(s[2..4])) == s[2..4];
  }

  /** What Sender::run writes for a packet counter. The counter is cut in two 32-bit halves. */
  function HeaderFor(signature: nat, port: nat, counter: nat): (h: Header)
    requires signature < W16 && counter < W64
    ensures h.Fits() && IndexOf(h) == counter && h.signature == signature
    ensures port < W16 ==> h.responsePort == port
  {
    Header(signature, port % W16, counter / W32, counter % W32)
  }

  /** The index Receiver::run reassembles. */
  function IndexOf(h: Header): nat { h.indexH * W32 + h.indexL }

  function Datagram(signature: nat, port: nat, counter: nat, payload: seq<Byte>): (d: seq<Byte>)
    requires signature < W16 && counter < W64
    ensures |d| == HEADER_SIZE + |payload|
  {
    Encode(HeaderFor(signature, port, counter)) + payload
  }

  // ------------------------------------------------------------ buffers

  /** DynamicBuffer.copy: the bytes are replaced, but a shorter copy leaves the tail of the
      longer one before it in place. */
  function Overlay(bytes: seq<Byte>, before: seq<Byte>): (after: seq<Byte>)
    ensures after == bytes <==> |before| <= |bytes|
  {
    bytes + if |bytes| < |before| then before[|bytes|..] else []
  }

  function OverlayAll(writes: seq<seq<Byte>>): (r: seq<Byte>)
    ensures forall i :: 0 <= i < |writes| ==> |writes[i]| <= |r|
  {
    if writes == [] then [] else
      var n := |writes| - 1;
      assert writes == writes[..n] + [writes[n]];
      Overlay(writes[n], OverlayAll(writes[..n]))
  }

  lemma {:induction false} OverlayLength(writes: seq<seq<Byte>>, bound: nat)
    requires forall i :: 0 <= i < |writes| ==> |writes[i]| <= bound
    ensures |OverlayAll(writes)| <= bound
    decreases |writes|
  {
    if writes != [] {
      OverlayLength(writes[..|writes| - 1], bound);
    }
  }

  /** What goes out after a series of writes is the last of them exactly if none before it was
      longer. */
  lemma {:induction false} LastWriteIsSent(writes: seq<seq<Byte>>)
    requires writes != []
    ensures OverlayAll(writes) == writes[|writes| - 1]
      <==> forall i :: 0 <= i < |writes| ==> |writes[i]| <= |writes[|writes| - 1]|
  {
    var n := |writes| - 1;
    if forall i :: 0 <= i < |writes| ==> |writes[i]| <= |writes[n]| {
      OverlayLength(writes[..n], |writes[n]|);
    }
  }

  class DynamicBuffer {
    var values: array?<Byte>
    var length: nat

    ghost predicate Valid()
      reads this
    {
      if values == null then length == 0 else length <= values.Length
    }

    ghost function Footprint(): set<object>
      reads this
    {
      if values == null then {} else {values}
    }

    ghost function Contents(): (s: seq<Byte>)
      requires Valid()
      reads this, Footprint()
      ensures |s| == length
    {
      if values == null then [] else values[..length]
    }

    constructor ()
      ensures Valid() && Contents() == [] && values == null
    {
      values, length := null, 0;
    }

    /** New memory is taken, and the old contents given up, only if the size outgrows it. */
    method Resize(s: nat)
      requires Valid()
      modifies this
      ensures Valid() && length == s
      ensures values == old(values) || fresh(values)
      ensures s <= old(length) ==> Contents() == old(Contents())[..s]
      ensures old(values) != null && s <= old(values).Length ==> values == old(values) && Contents() == values[..s]
      ensures old(values) != null && old(length) <= s <= old(values).Length ==> Contents()[..old(length)] == old(Contents())
    {
      if s == length {
        return;
      }
      if values == null || s > values.Length {
        values := new Byte[s];
      }
      length := s;
    }

    method Copy(bytes: seq<Byte>, byteOffset: nat)
      requires Valid()
      modifies this, Footprint()
      ensures Valid() && (values == old(values) || fresh(values))
      ensures length == if byteOffset + |bytes| > old(length) then byteOffset + |bytes| else old(length)
      ensures byteOffset + |bytes| <= old(length) ==> Contents()[..byteOffset] == old(Contents())[..byteOffset]
      ensures Contents()[byteOffset..]
        == Overlay(bytes, if byteOffset <= old(length) then old(Contents())[byteOffset..] else [])
    {
      ghost var before := Contents();
      var needed := byteOffset + |bytes|;
      if values == null || needed > length {
        Resize(needed);
      }
      ghost var resized := Contents();
      if bytes != [] {
        Spliced(values[..], length, byteOffset, bytes);
        MemCopy(values, byteOffset, bytes);
      }
      assert Contents() == resized[..byteOffset] + bytes + resized[needed..];
      CopyResult(before, resized, byteOffset, bytes);
    }
  }

  lemma Spliced(all: seq<Byte>, length: nat, offset: nat, bytes: seq<Byte>)
    requires offset + |bytes| <= length <= |all|
    ensures (all[..offset] + bytes + all[offset + |bytes|..])[..length]
      == all[..length][..offset] + bytes + all[..length][offset + |bytes|..]
  {}

  lemma CopyResult(before: seq<Byte>, resized: seq<Byte>, offset: nat, bytes: seq<Byte>)
    requires |resized| == if offset + |bytes| > |before| then offset + |bytes| else |before|
    requires offset + |bytes| <= |before| ==> resized == before
    ensures var after := resized[..offset] + bytes + resized[offset + |bytes|..];
      && |after| == |resized| && (offset + |bytes| <= |before| ==> after[..offset] == before[..offset])
      && after[offset..] == Overlay(bytes, if offset <= |before| then before[offset..] else [])
  {
    var after := resized[..offset] + bytes + resized[offset + |bytes|..];
    assert after[offset..] == bytes + resized[offset + |bytes|..];
    if offset + |bytes| <= |before| {
      assert before[offset..][|bytes|..] == before[offset + |bytes|..];
    }
  }

  // ------------------------------------------------------------ connection states

  datatype Conn = DISCONNECTED | CONNECTING | CONNECTED | DISCONNECTING | FAULT | UNKNOWN

  /** The guard of setConnectionState. */
  function SetState(current: Conn, wanted: Conn): Conn {
    if wanted == CONNECTED && current != CONNECTING then current
    else if wanted == DISCONNECTED && current != DISCONNECTING then current
    else wanted
  }

  /** Every state the socket passes through under a series of requests. */
  function Trace(start: Conn, requests: seq<Conn>): (t: seq<Conn>)
    ensures |t| == |requests| + 1
  {
    if requests == [] then [start]
    else
      var t := Trace(start, requests[..|requests| - 1]);
      t + [SetState(t[|t| - 1], requests[|requests| - 1])]
  }

  /** In every series of requests, the two guarded ones are granted from one state each and
      leave every other state as it is; all others are granted from everywhere. */
  lemma {:induction false} GrantedExactly(start: Conn, requests: seq<Conn>, k: nat)
    requires k < |requests|
    ensures var t, r := Trace(start, requests), requests[k];
      && (r == CONNECTED ==> t[k + 1] == if t[k] == CONNECTING then CONNECTED else t[k])
      && (r == DISCONNECTED ==> t[k + 1] == if t[k] == DISCONNECTING then DISCONNECTED else t[k])
      && (r != CONNECTED && r != DISCONNECTED ==> t[k + 1] == r)
    decreases |requests|
  {
    if k < |requests| - 1 {
      GrantedExactly(start, requests[..|requests| - 1], k);
    }
  }

  /** No run of requests, from any thread in any order, brings a socket back to CONNECTED
      without a connect in between, nor to DISCONNECTED without a disconnect. */
  lemma {:induction false} NoShortcut(start: Conn, requests: seq<Conn>, i: nat, j: nat)
    requires i < j <= |requests|
    ensures var t := Trace(start, requests);
      && (t[j] == CONNECTED && t[i] != CONNECTED ==> CONNECTING in t[i..j])
      && (t[j] == DISCONNECTED && t[i] != DISCONNECTED ==> DISCONNECTING in t[i..j])
    decreases |requests|
  {
    var n := |requests| - 1;
    var t, u := Trace(start, requests), Trace(start, requests[..n]);
    if j < |requests| {
      NoShortcut(start, requests[..n], i, j);
      assert t[i..j] == u[i..j];
    } else {
      assert t[i..j] == u[i..j - 1] + [u[j - 1]];
      if i < j - 1 {
        NoShortcut(start, requests[..n], i, j - 1);
      }
    }
  }

  // ------------------------------------------------------------ receiver

  datatype Verdict = Bad | Stale | Good(index: nat, payload: seq<Byte>)

  datatype Receiver = Receiver(client: bool, conn: Conn, gotFirst: bool, last: nat, bad: nat,
                               buffer: seq<Byte>, avail: bool, fired: bool, fault: bool)

  const BAD_WHILE_CONNECTED := 5
  const BAD_WHILE_CONNECTING := 40

  function OwnSignature(client: bool): nat { if client then CLIENT_TO_SERVER else SERVER_TO_CLIENT }

  /** A client ignores the top bit of the signature. */
  predicate SignatureFits(client: bool, signature: nat) {
    if client then signature % 0x8000 == SERVER_TO_CLIENT % 0x8000 else signature == CLIENT_TO_SERVER
  }

  predicate WellFormed(client: bool, d: seq<Byte>) {
    |d| > HEADER_SIZE && SignatureFits(client, Decode(d[..HEADER_SIZE]).signature)
  }

  function Judge(client: bool, gotFirst: bool, last: nat, d: seq<Byte>): Verdict {
    if !WellFormed(client, d) then Bad
    else
      var index := IndexOf(Decode(d[..HEADER_SIZE]));
      if gotFirst && index <= last then Stale else Good(index, d[HEADER_SIZE..])
  }

  function VerdictOn(r: Receiver, d: seq<Byte>): Verdict { Judge(r.client, r.gotFirst, r.last, d) }

  predicate Listening(r: Receiver) { r.conn == CONNECTED || r.conn == CONNECTING }

  function Limit(conn: Conn): nat { if conn == CONNECTED then BAD_WHILE_CONNECTED else BAD_WHILE_CONNECTING }

  /** Receiver::run; a timeout is the empty datagram. */
  function Receive(r: Receiver, d: seq<Byte>): Receiver {
    if !Listening(r) then r
    else match VerdictOn(r, d)
      case Bad =>
        if r.bad + 1 >= Limit(r.conn) then r.(bad := r.bad + 1, conn := FAULT, fault := true, fired := true)
        else r.(bad := r.bad + 1)
      case Stale => r
      case Good(index, payload) =>
        r.(conn := CONNECTED, bad := 0, last := index, gotFirst := true,
           buffer := Overlay(payload, r.buffer), avail := true, fired := true)
  }

  /** connect: a reset receiver. The buffer keeps what an earlier connection left in it, and
      the condition may still be fired. */
  function Reset(client: bool, leftover: seq<Byte>, last: nat, fired: bool): Receiver {
    Receiver(client, CONNECTING, false, last, 0, leftover, false, fired, false)
  }

  /** A packet that comes back to its own sender counts as an error. */
  lemma OwnPacketsRejected(client: bool, gotFirst: bool, last: nat, port: nat, counter: nat, payload: seq<Byte>)
    requires counter < W64
    ensures Judge(client, gotFirst, last, Datagram(OwnSignature(client), port, counter, payload)) == Bad
  {
    hide Encode, Decode;
    DatagramParts(OwnSignature(client), port, counter, payload);
  }

  lemma DatagramParts(signature: nat, port: nat, counter: nat, payload: seq<Byte>)
    requires signature < W16 && counter < W64
    ensures var d := Datagram(signature, port, counter, payload);
      && d[HEADER_SIZE..] == payload
      && Decode(d[..HEADER_SIZE]) == HeaderFor(signature, port, counter)
  {
    hide Encode, Decode;
    var h := HeaderFor(signature, port, counter);
    HeaderRoundTrip(h);
    assert Datagram(signature, port, counter, payload)[..HEADER_SIZE] == Encode(h);
  }

  /** The peer's packet is judged by its 64-bit index alone, and yields its payload. An empty
      payload is an error. */
  lemma PeerPacketJudged(client: bool, gotFirst: bool, last: nat, port: nat, counter: nat, payload: seq<Byte>)
    requires counter < W64
    ensures Judge(client, gotFirst, last, Datagram(OwnSignature(!client), port, counter, payload))
      == if payload == [] then Bad else if gotFirst && counter <= last then Stale else Good(counter, payload)
  {
    hide Encode, Decode;
    DatagramParts(OwnSignature(!client), port, counter, payload);
  }

  // ------------------------------------------------------------ faults

  function Feed(r: Receiver, ds: seq<seq<Byte>>): Receiver {
    if ds == [] then r else Receive(Feed(r, ds[..|ds| - 1]), ds[|ds| - 1])
  }

  function Verdicts(r: Receiver, ds: seq<seq<Byte>>): (vs: seq<Verdict>)
    ensures |vs| == |ds|
  {
    if ds == [] then [] else
      var n := |ds| - 1;
      Verdicts(r, ds[..n]) + [VerdictOn(Feed(r, ds[..n]), ds[n])]
  }

  /** Errors since the last accepted packet. Stale packets neither count nor clear. */
  function Trailing(vs: seq<Verdict>): nat {
    if vs == [] then 0 else
      var n := |vs| - 1;
      if vs[n].Good? then 0 else Trailing(vs[..n]) + if vs[n] == Bad then 1 else 0
  }

  predicate Accepted(vs: seq<Verdict>) {
    exists i :: 0 <= i < |vs| && vs[i].Good?
  }

  predicate Broken(vs: seq<Verdict>) {
    Trailing(vs) >= if Accepted(vs) then BAD_WHILE_CONNECTED else BAD_WHILE_CONNECTING
  }

  predicate EverBroken(vs: seq<Verdict>) {
    exists n :: 0 <= n <= |vs| && Broken(vs[..n])
  }

  lemma {:induction false} TrailingStep(vs: seq<Verdict>, v: Verdict)
    ensures Trailing(vs + [v]) == if v.Good? then 0 else Trailing(vs) + if v == Bad then 1 else 0
  {
    assert (vs + [v])[..|vs|] == vs;
  }

  lemma {:induction false} AcceptedStep(vs: seq<Verdict>, v: Verdict)
    ensures Accepted(vs + [v]) <==> Accepted(vs) || v.Good?
  {
    var ws := vs + [v];
    if Accepted(vs) {
      var i :| 0 <= i < |vs| && vs[i].Good?;
      assert ws[i].Good?;
    }
    if v.Good? {
      assert ws[|vs|].Good?;
    }
  }

  lemma {:induction false} BrokenStep(vs: seq<Verdict>, v: Verdict)
    ensures EverBroken(vs + [v]) <==> EverBroken(vs) || Broken(vs + [v])
    ensures Broken(vs) ==> EverBroken(vs)
  {
    hide Broken;
    var ws := vs + [v];
    assert ws[..|ws|] == ws && vs[..|vs|] == vs;
    if EverBroken(vs) {
      var n :| 0 <= n <= |vs| && Broken(vs[..n]);
      assert ws[..n] == vs[..n];
    }
    if EverBroken(ws) {
      var n :| 0 <= n <= |ws| && Broken(ws[..n]);
      if n <= |vs| {
        assert ws[..n] == vs[..n];
      }
    }
  }

  /** The state of the connection after the verdicts `vs`. */
  ghost predicate Tracks(t: Receiver, vs: seq<Verdict>) {
    && (t.conn == FAULT <==> EverBroken(vs))
    && (t.conn != FAULT ==> t.conn == (if Accepted(vs) then CONNECTED else CONNECTING) && t.bad == Trailing(vs))
  }

  lemma TracksStep(t: Receiver, vs: seq<Verdict>, d: seq<Byte>)
    requires Tracks(t, vs)
    ensures Tracks(Receive(t, d), vs + [VerdictOn(t, d)])
  {
    hide Judge, EverBroken, Accepted;
    BrokenStep(vs, VerdictOn(t, d));
    TrailingStep(vs, VerdictOn(t, d));
    AcceptedStep(vs, VerdictOn(t, d));
  }

  /** A connection faults exactly if at some moment forty errors have come with no packet
      accepted yet, or five since the last accepted one; before that it is connected exactly
      if a packet has been accepted. */
  lemma {:induction false} FaultExactly(r: Receiver, ds: seq<seq<Byte>>)
    requires r.conn == CONNECTING && r.bad == 0
    ensures Tracks(Feed(r, ds), Verdicts(r, ds))
    decreases |ds|
  {
    if ds == [] {
      assert Verdicts(r, ds)[..0] == [];
      assert !Broken([]);
    } else {
      hide Tracks;
      var n := |ds| - 1;
      FaultExactly(r, ds[..n]);
      TracksStep(Feed(r, ds[..n]), Verdicts(r, ds[..n]), ds[n]);
    }
  }

  // ------------------------------------------------------------ one direction of a connection

  datatype Sender = Sender(client: bool, port: nat, data: seq<Byte>, fired: bool, out: seq<Byte>, counter: nat)

  /** setPayload */
  function Write(s: Sender, payload: seq<Byte>): Sender {
    s.(data := Overlay(payload, s.data), fired := true)
  }

  /** The payload the next Sender::run puts on the wire. */
  function NextPayload(s: Sender): seq<Byte> {
    if s.fired then Overlay(s.data, s.out) else s.out
  }

  function NextDatagram(s: Sender): seq<Byte>
    requires s.counter < W64
  {
    Datagram(OwnSignature(s.client), s.port, s.counter, NextPayload(s))
  }

  /** Sender::run; the 64-bit counter wraps. */
  function Sent(s: Sender): Sender {
    s.(out := NextPayload(s), fired := false, counter := (s.counter + 1) % W64)
  }

  /** The same when the socket below throws: the packet is lost and its index used again. */
  function FailedSend(s: Sender): Sender { Sent(s).(counter := s.counter) }

  /** disconnect */
  function Disconnected(r: Receiver): Receiver {
    r.(conn := if r.conn == DISCONNECTING then DISCONNECTING else DISCONNECTED)
  }

  /** read: what is delivered, and the receiver afterwards. */
  function ReadResult(r: Receiver, length: nat): seq<Byte> {
    if r.fired && r.avail && !r.fault then r.buffer[..if length <= |r.buffer| then length else |r.buffer|] else []
  }

  function AfterRead(r: Receiver): Receiver { r.(avail := false, fired := false) }

  /** One direction of a connection with its network. `payloads` has what each datagram of
      `sent` carries; `accepted` and `readLog` are what the receiver took and what the
      application got since the last connect, each with its index, and `leftover` is what the
      receive buffer held then. */
  datatype Link = Link(sender: Sender, sent: seq<seq<Byte>>, payloads: seq<seq<Byte>>,
                       receiver: Receiver, accepted: seq<(nat, seq<Byte>)>, readLog: seq<(nat, seq<Byte>)>,
                       leftover: seq<Byte>)

  datatype Step =
    | WriteStep(payload: seq<Byte>)
    | SendStep
    | FailedSendStep               // the buffer is made up, the packet lost, the index kept
    | DeliverStep(i: nat)          // any datagram ever sent, as often as the network likes
    | NoiseStep(d: seq<Byte>)      // a timeout, or a datagram from elsewhere
    | ReadStep(length: nat)
    | ConnectStep(port: nat)
    | DisconnectStep
    | FaultStep                    // from another thread

  predicate Enabled(l: Link, step: Step) {
    match step
    case WriteStep(_) => true
    case SendStep => l.sender.counter < W64
    case FailedSendStep => true
    case DeliverStep(i) => i < |l.sent|
    case NoiseStep(d) => !WellFormed(l.receiver.client, d)
    case ReadStep(_) => l.receiver.conn == CONNECTED
    case ConnectStep(_) => true
    case DisconnectStep => true
    case FaultStep => true
  }

  function Arrive(l: Link, d: seq<Byte>): Link {
    var v := VerdictOn(l.receiver, d);
    l.(receiver := Receive(l.receiver, d),
       accepted := if Listening(l.receiver) && v.Good? then l.accepted + [(v.index, v.payload)] else l.accepted)
  }

  function Apply(l: Link, step: Step): Link
    requires Enabled(l, step)
  {
    match step
    case WriteStep(payload) => l.(sender := Write(l.sender, payload))
    case SendStep =>
      l.(sender := Sent(l.sender), sent := l.sent + [NextDatagram(l.sender)], payloads := l.payloads + [NextPayload(l.sender)])
    case FailedSendStep => l.(sender := FailedSend(l.sender))
    case DeliverStep(i) => Arrive(l, l.sent[i])
    case NoiseStep(d) => Arrive(l, d)
    case ReadStep(length) =>
      var r := l.receiver;
      l.(receiver := AfterRead(r),
         readLog := if r.fired && r.avail && !r.fault then l.readLog + [(r.last, ReadResult(r, length))] else l.readLog)
    case ConnectStep(port) =>
      var r := l.receiver;
      l.(sender := l.sender.(port := port), receiver := Reset(r.client, r.buffer, r.last, r.fired),
         accepted := [], readLog := [], leftover := r.buffer)
    case DisconnectStep => l.(receiver := Disconnected(l.receiver))
    case FaultStep => l.(receiver := l.receiver.(conn := FAULT, fault := true, fired := true))
  }

  predicate Legal(l: Link, steps: seq<Step>)
    decreases steps
  {
    steps == [] || (Enabled(l, steps[0]) && Legal(Apply(l, steps[0]), steps[1..]))
  }

  function Run(l: Link, steps: seq<Step>): Link
    requires Legal(l, steps)
    decreases steps
  {
    if steps == [] then l else Run(Apply(l, steps[0]), steps[1..])
  }

  /** A datagram with this index and payload; the response port may be any. */
  ghost predicate Carries(d: seq<Byte>, client: bool, counter: nat, payload: seq<Byte>) {
    counter < W64 && exists port: nat :: d == Datagram(OwnSignature(client), port, counter, payload)
  }

  lemma CarriedPacketJudged(client: bool, gotFirst: bool, last: nat, d: seq<Byte>, counter: nat, payload: seq<Byte>)
    requires Carries(d, !client, counter, payload)
    ensures Judge(client, gotFirst, last, d)
      == if payload == [] then Bad else if gotFirst && counter <= last then Stale else Good(counter, payload)
  {
    hide Judge, Datagram;
    var port: nat :| d == Datagram(OwnSignature(!client), port, counter, payload);
    PeerPacketJudged(client, gotFirst, last, port, counter, payload);
  }

  /** The sender's log: index and payload of every datagram. Payloads never get shorter. */
  ghost predicate SenderInv(s: Sender, sent: seq<seq<Byte>>, payloads: seq<seq<Byte>>) {
    && |sent| == |payloads| && s.counter == |sent| % W64
    && (forall i :: 0 <= i < |sent| ==> Carries(sent[i], s.client, i % W64, payloads[i]))
    && (forall i, j :: 0 <= i <= j < |payloads| ==> |payloads[i]| <= |payloads[j]|)
    && (forall i :: 0 <= i < |payloads| ==> |payloads[i]| <= |s.out|)
    && |s.out| <= |s.data|
  }

  predicate Increasing(log: seq<(nat, seq<Byte>)>) {
    forall i, j :: 0 <= i < j < |log| ==> log[i].0 < log[j].0
  }

  /** The receiver took datagrams the sender sent, with their own payloads, in sending order
      and each at most once. */
  ghost predicate InOrder(payloads: seq<seq<Byte>>, accepted: seq<(nat, seq<Byte>)>) {
    && Increasing(accepted)
    && forall i :: 0 <= i < |accepted| ==> accepted[i].0 < |payloads| && accepted[i].1 == payloads[accepted[i].0]
  }

  /** What is in the receive buffer: the payload just accepted, over what an earlier
      connection left. */
  ghost predicate BufferInv(r: Receiver, accepted: seq<(nat, seq<Byte>)>, leftover: seq<Byte>) {
    && (r.gotFirst <==> accepted != [])
    && (r.gotFirst ==> r.last == accepted[|accepted| - 1].0)
    && (r.avail ==> r.gotFirst)
    && r.buffer == if accepted == [] then leftover else Overlay(accepted[|accepted| - 1].1, leftover)
  }

  predicate ReadOf(payloads: seq<seq<Byte>>, leftover: seq<Byte>, entry: (nat, seq<Byte>)) {
    entry.0 < |payloads| && entry.1 <= Overlay(payloads[entry.0], leftover)
  }

  /** The application read sent payloads, in sending order and each at most once. */
  ghost predicate ReadsInOrder(payloads: seq<seq<Byte>>, log: seq<(nat, seq<Byte>)>, leftover: seq<Byte>) {
    && Increasing(log)
    && forall i :: 0 <= i < |log| ==> ReadOf(payloads, leftover, log[i])
  }

  ghost predicate ReadsBehind(r: Receiver, log: seq<(nat, seq<Byte>)>) {
    && (log != [] ==> r.gotFirst)
    && forall i :: 0 <= i < |log| ==> log[i].0 <= r.last && (r.avail ==> log[i].0 < r.last)
  }

  ghost predicate Inv(l: Link) {
    && l.sender.client == !l.receiver.client
    && SenderInv(l.sender, l.sent, l.payloads)
    && InOrder(l.payloads, l.accepted)
    && BufferInv(l.receiver, l.accepted, l.leftover)
    && ReadsInOrder(l.payloads, l.readLog, l.leftover)
    && ReadsBehind(l.receiver, l.readLog)
  }

  lemma OverlayLonger(a: seq<Byte>, b: seq<Byte>)
    ensures |Overlay(a, b)| >= |a| && |Overlay(a, b)| >= |b|
    ensures |b| <= |a| ==> Overlay(a, b) == a
  {}

  lemma SendKeepsSender(s: Sender, sent: seq<seq<Byte>>, payloads: seq<seq<Byte>>)
    requires SenderInv(s, sent, payloads) && s.counter < W64
    ensures SenderInv(Sent(s), sent + [NextDatagram(s)], payloads + [NextPayload(s)])
  {
    hide Datagram, Overlay;
    OverlayLonger(s.data, s.out);
  }

  lemma SendKeepsInv(l: Link)
    requires Inv(l) && l.sender.counter < W64
    ensures Inv(Apply(l, SendStep))
  {
    hide NextDatagram, NextPayload, Overlay, SenderInv;
    SendKeepsSender(l.sender, l.sent, l.payloads);
  }

  lemma WriteKeepsInv(l: Link, payload: seq<Byte>)
    requires Inv(l)
    ensures Inv(Apply(l, WriteStep(payload)))
  {
    hide Datagram, Overlay;
    OverlayLonger(payload, l.sender.data);
  }

  lemma ConnectKeepsInv(l: Link, port: nat)
    requires Inv(l)
    ensures Inv(Apply(l, ConnectStep(port)))
  {
    hide Carries;
  }

  lemma FailedSendKeepsInv(l: Link)
    requires Inv(l)
    ensures Inv(Apply(l, FailedSendStep))
  {
    hide Carries, Overlay;
    OverlayLonger(l.sender.data, l.sender.out);
  }

  lemma StateKeepsInv(l: Link, step: Step)
    requires Inv(l) && (step == DisconnectStep || step == FaultStep)
    ensures Inv(Apply(l, step))
  {
    hide Carries, Overlay, SenderInv, InOrder, ReadsInOrder;
  }

  lemma RejectKeepsInv(l: Link, d: seq<Byte>)
    requires Inv(l) && !VerdictOn(l.receiver, d).Good?
    ensures Inv(Arrive(l, d))
  {
    hide Overlay, Judge, SenderInv, InOrder, ReadsInOrder;
  }

  lemma ReadKeepsInv(l: Link, length: nat)
    requires Inv(l) && l.receiver.conn == CONNECTED
    ensures Inv(Apply(l, ReadStep(length)))
  {
    hide Overlay, SenderInv;
    var r := l.receiver;
    assert ReadResult(r, length) <= r.buffer;
    if r.fired && r.avail && !r.fault {
      assert r.last < |l.payloads| && r.buffer == Overlay(l.payloads[r.last], l.leftover);
      assert ReadOf(l.payloads, l.leftover, (r.last, ReadResult(r, length)));
    }
  }

  /** Receive on a packet with index `index`, whose payload is at least as long as any before. */
  lemma AcceptKeepsInv(l: Link, index: nat)
    requires Inv(l) && index < |l.payloads| && Listening(l.receiver)
    requires l.receiver.gotFirst ==> l.receiver.last < index
    ensures var r, p := l.receiver, l.payloads[index];
      Inv(l.(receiver := r.(conn := CONNECTED, bad := 0, last := index, gotFirst := true,
                            buffer := Overlay(p, r.buffer), avail := true, fired := true),
             accepted := l.accepted + [(index, p)]))
  {
    hide Overlay, Datagram;
    if l.accepted != [] {
      OverlayTwiceIf(l.payloads[index], l.accepted[|l.accepted| - 1].1, l.leftover);
    }
  }

  lemma DeliverKeepsInv(l: Link, i: nat)
    requires Inv(l) && i < |l.sent| <= W64
    ensures Inv(Apply(l, DeliverStep(i)))
  {
    hide Carries, Overlay, Judge, InOrder, ReadsInOrder, ReadsBehind, BufferInv;
    assert i % W64 == i;
    CarriedPacketJudged(l.receiver.client, l.receiver.gotFirst, l.receiver.last, l.sent[i], i, l.payloads[i]);
    if !Listening(l.receiver) {
    } else if VerdictOn(l.receiver, l.sent[i]).Good? {
      AcceptKeepsInv(l, i);
    } else {
      RejectKeepsInv(l, l.sent[i]);
    }
  }

  lemma OverlayTwiceIf(a: seq<Byte>, b: seq<Byte>, c: seq<Byte>)
    ensures |b| <= |a| ==> Overlay(a, Overlay(b, c)) == Overlay(a, c)
  {}

  lemma {:induction false} SentOnlyGrows(l: Link, steps: seq<Step>)
    requires Legal(l, steps)
    ensures |Run(l, steps).sent| >= |l.sent|
    decreases steps
  {
    if steps != [] {
      SentOnlyGrows(Apply(l, steps[0]), steps[1..]);
    }
  }

  lemma {:induction false} RunKeepsInv(l: Link, steps: seq<Step>)
    requires Inv(l) && Legal(l, steps) && |Run(l, steps).sent| <= W64
    ensures Inv(Run(l, steps))
    decreases steps
  {
    if steps != [] {
      hide Inv;
      SentOnlyGrows(l, steps);
      match steps[0] {
        case WriteStep(payload) => WriteKeepsInv(l, payload);
        case SendStep => SendKeepsInv(l);
        case DeliverStep(i) => DeliverKeepsInv(l, i);
        case NoiseStep(d) => RejectKeepsInv(l, d);
        case ReadStep(length) => ReadKeepsInv(l, length);
        case ConnectStep(port) => ConnectKeepsInv(l, port);
        case FailedSendStep => FailedSendKeepsInv(l);
        case DisconnectStep => StateKeepsInv(l, DisconnectStep);
        case FaultStep => StateKeepsInv(l, FaultStep);
      }
      RunKeepsInv(Apply(l, steps[0]), steps[1..]);
    }
  }

  /** Two new sockets, before the first connect. */
  function NewLink(client: bool, port: nat, payload: seq<Byte>, conn: Conn): Link {
    Link(Write(Sender(!client, port, [], false, [], 0), payload), [], [],
         Receiver(client, conn, false, 0, 0, [], false, false, false), [], [], [])
  }

  lemma NewLinkInv(client: bool, port: nat, payload: seq<Byte>, conn: Conn)
    ensures Inv(NewLink(client, port, payload, conn))
  {}

  /** At most once and in order, whatever the network does and however often the sockets
      connect anew: as long as the sender's count stays within 64 bits, the packets accepted
      since the last connect are a subsequence of those sent, each with its own payload, and so
      is what the application reads. What it reads of a packet is a prefix of the packet's
      payload, but for the tail of a longer message left from before the connect. */
  lemma {:induction false} AtMostOnceInOrder(client: bool, port: nat, payload: seq<Byte>, conn: Conn, steps: seq<Step>)
    requires var l := NewLink(client, port, payload, conn); Legal(l, steps) && |Run(l, steps).sent| <= W64
    ensures var m := Run(NewLink(client, port, payload, conn), steps);
      && InOrder(m.payloads, m.accepted)
      && ReadsInOrder(m.payloads, m.readLog, m.leftover)
  {
    NewLinkInv(client, port, payload, conn);
    RunKeepsInv(NewLink(client, port, payload, conn), steps);
  }

  /** A receiver that listens has no fault pending, and a message that waits is announced. */
  predicate Sound(r: Receiver) {
    (r.fault ==> !Listening(r)) && (r.avail ==> r.fired)
  }

  lemma StepKeepsSound(l: Link, step: Step)
    requires Sound(l.receiver) && Enabled(l, step)
    ensures Sound(Apply(l, step).receiver)
  {
    hide Judge, Overlay, Datagram, WellFormed, NextPayload;
  }

  lemma {:induction false} SoundOverRuns(l: Link, steps: seq<Step>)
    requires Sound(l.receiver) && Legal(l, steps)
    ensures Sound(Run(l, steps).receiver)
    decreases steps
  {
    if steps != [] {
      StepKeepsSound(l, steps[0]);
      hide Apply, Enabled, Sound;
      SoundOverRuns(Apply(l, steps[0]), steps[1..]);
    }
  }

  /** All there is to read of a packet: its payload, and behind it what a longer message from
      before the connect has left in the buffer. */
  function Readable(payload: seq<Byte>, leftover: seq<Byte>): (full: seq<Byte>)
    ensures payload <= full && |full| == if |leftover| <= |payload| then |payload| else |leftover|
    ensures forall k :: |payload| <= k < |full| ==> full[k] == leftover[k]
  {
    payload + if |payload| < |leftover| then leftover[|payload|..] else []
  }

  function FirstBytes(s: seq<Byte>, n: nat): (b: seq<Byte>)
    ensures b <= s && |b| == if n <= |s| then n else |s|
  {
    s[..if n <= |s| then n else |s|]
  }

  lemma ArrivalIsGood(l: Link, i: nat)
    requires Inv(l) && i < |l.sent| <= W64 && l.payloads[i] != []
    requires l.accepted != [] ==> l.accepted[|l.accepted| - 1].0 < i
    ensures VerdictOn(l.receiver, l.sent[i]) == Good(i, l.payloads[i])
  {
    hide Carries, Judge, Overlay, InOrder, ReadsInOrder, ReadsBehind;
    assert i % W64 == i;
    CarriedPacketJudged(l.receiver.client, l.receiver.gotFirst, l.receiver.last, l.sent[i], i, l.payloads[i]);
  }

  lemma ArrivalIsTaken(l: Link, i: nat)
    requires Inv(l) && Sound(l.receiver) && Listening(l.receiver) && i < |l.sent| <= W64 && l.payloads[i] != []
    requires l.accepted != [] ==> l.accepted[|l.accepted| - 1].0 < i
    ensures var m := Apply(l, DeliverStep(i));
      && m.accepted == l.accepted + [(i, l.payloads[i])] && m.readLog == l.readLog && m.leftover == l.leftover
      && m.payloads == l.payloads && i < |m.payloads| && Waiting(m.receiver)
  {
    hide Inv, VerdictOn, Overlay;
    ArrivalIsGood(l, i);
    InvLengths(l);
  }

  predicate Waiting(r: Receiver) { r.conn == CONNECTED && r.avail && r.fired && !r.fault }

  lemma WaitingIsRead(l: Link, i: nat, n: nat)
    requires Inv(l) && i < |l.payloads| && l.accepted != [] && l.accepted[|l.accepted| - 1] == (i, l.payloads[i])
    requires Waiting(l.receiver)
    ensures var m, full := Apply(l, ReadStep(n)), Readable(l.payloads[i], l.leftover);
      && m.readLog == l.readLog + [(i, FirstBytes(full, n))]
      && m.receiver.conn == CONNECTED && !m.receiver.avail
  {
    OverlayIsReadable(l.payloads[i], l.leftover);
    hide SenderInv, InOrder, ReadsInOrder, ReadsBehind, Overlay, Readable;
    assert l.receiver.buffer == Readable(l.payloads[i], l.leftover);
    ReadGives(l.receiver, n);
  }

  lemma OverlayIsReadable(payload: seq<Byte>, leftover: seq<Byte>)
    ensures Overlay(payload, leftover) == Readable(payload, leftover)
  {}

  lemma ReadGives(r: Receiver, n: nat)
    requires r.avail && r.fired && !r.fault
    ensures ReadResult(r, n) == FirstBytes(r.buffer, n)
  {}

  lemma NothingTwice(l: Link, n: nat)
    requires l.receiver.conn == CONNECTED && !l.receiver.avail
    ensures Apply(l, ReadStep(n)).readLog == l.readLog
  {}

  /** A socket that has been disconnected, or has faulted, takes nothing and gives nothing until
      it connects again, whatever arrives. */
  lemma {:induction false} DeafUntilConnect(l: Link, closing: Step, steps: seq<Step>)
    requires closing == DisconnectStep || closing == FaultStep
    requires Legal(Apply(l, closing), steps)
    requires forall k :: 0 <= k < |steps| ==> !steps[k].ConnectStep?
    ensures var m := Run(Apply(l, closing), steps); m.accepted == l.accepted && m.readLog == l.readLog
  {
    StaysDeaf(Apply(l, closing), steps);
  }

  lemma {:induction false} StaysDeaf(l: Link, steps: seq<Step>)
    requires !Listening(l.receiver) && Legal(l, steps)
    requires forall k :: 0 <= k < |steps| ==> !steps[k].ConnectStep?
    ensures var m := Run(l, steps); m.accepted == l.accepted && m.readLog == l.readLog
    decreases steps
  {
    hide Judge, Overlay, Datagram, WellFormed;
    if steps != [] {
      assert !steps[0].ConnectStep?;
      StaysDeaf(Apply(l, steps[0]), steps[1..]);
    }
  }

  /** After a failed send the next packet is the one that was lost, with its index. */
  lemma FailedSendRetries(s: Sender)
    requires s.counter < W64
    ensures NextDatagram(FailedSend(s)) == NextDatagram(s)
    ensures Sent(FailedSend(s)) == Sent(s)
  {
    hide Datagram, Overlay;
  }

  /** Delivery: after every run of two new sockets within 64 bits that leaves the receiver
      listening, any packet sent that is not empty and newer than the last one accepted is
      taken when it arrives, and the next read gives the application as much of it as asked
      for, and all of it if no longer message was left over; a second read gives nothing. */
  lemma {:induction false} Delivered(client: bool, port: nat, payload: seq<Byte>, conn: Conn, steps: seq<Step>,
                                     i: nat, n: nat, again: nat)
    requires Legal(NewLink(client, port, payload, conn), steps)
    requires var l := Run(NewLink(client, port, payload, conn), steps);
      && |l.sent| <= W64 && Listening(l.receiver) && i < |l.payloads| && l.payloads[i] != []
      && (l.accepted != [] ==> l.accepted[|l.accepted| - 1].0 < i)
    ensures Legal(NewLink(client, port, payload, conn), steps + [DeliverStep(i), ReadStep(n), ReadStep(again)])
    ensures var l := Run(NewLink(client, port, payload, conn), steps);
      var m := Run(NewLink(client, port, payload, conn), steps + [DeliverStep(i), ReadStep(n), ReadStep(again)]);
      var full := Readable(l.payloads[i], l.leftover);
      && m.readLog == l.readLog + [(i, FirstBytes(full, n))]
      && (|l.leftover| <= |l.payloads[i]| <= n ==> m.readLog == l.readLog + [(i, l.payloads[i])])
  {
    var start := NewLink(client, port, payload, conn);
    NewLinkInv(client, port, payload, conn);
    assert Sound(start.receiver);
    hide NewLink, Inv, Sound, Listening, Apply, Legal, Run, Readable, FirstBytes;
    RunKeepsInv(start, steps);
    SoundOverRuns(start, steps);
    var l := Run(start, steps);
    InvLengths(l);
    var tail := DeliverAndRead(l, i, n, again);
    RunConcat(start, steps, tail);
    WholeMessage(l.payloads[i], l.leftover, n);
  }

  lemma WholeMessage(payload: seq<Byte>, leftover: seq<Byte>, n: nat)
    ensures |leftover| <= |payload| <= n ==> FirstBytes(Readable(payload, leftover), n) == payload
  {}

  lemma DeliverAndRead(l: Link, i: nat, n: nat, again: nat) returns (steps: seq<Step>)
    requires Inv(l) && Sound(l.receiver) && Listening(l.receiver) && i < |l.sent| <= W64 && l.payloads[i] != []
    requires l.accepted != [] ==> l.accepted[|l.accepted| - 1].0 < i
    ensures steps == [DeliverStep(i), ReadStep(n), ReadStep(again)] && Legal(l, steps)
    ensures var full := Readable(l.payloads[i], l.leftover);
      Run(l, steps).readLog == l.readLog + [(i, FirstBytes(full, n))]
  {
    hide Inv, Sound, Listening, Judge, WellFormed, Apply, Readable, FirstBytes;
    ArrivalIsTaken(l, i);
    DeliverKeepsInv(l, i);
    var a := Apply(l, DeliverStep(i));
    WaitingIsRead(a, i, n);
    var b := Apply(a, ReadStep(n));
    NothingTwice(b, again);
    RunThree(l, DeliverStep(i), ReadStep(n), ReadStep(again));
    steps := [DeliverStep(i), ReadStep(n), ReadStep(again)];
  }

  lemma RunThree(l: Link, a: Step, b: Step, c: Step)
    requires Enabled(l, a) && Enabled(Apply(l, a), b) && Enabled(Apply(Apply(l, a), b), c)
    ensures Legal(l, [a, b, c]) && Run(l, [a, b, c]) == Apply(Apply(Apply(l, a), b), c)
  {
    hide Apply, Enabled;
    assert [a, b, c][1..] == [b, c] && [b, c][1..] == [c];
    RunOne(Apply(Apply(l, a), b), c);
  }

  /** The bound is needed: once the counter has wrapped, an older packet that arrives late is
      accepted after a newer one. */
  lemma WrapBreaksOrder(l: Link, older: nat)
    requires SenderInv(l.sender, l.sent, l.payloads) && |l.sent| > W64 && 0 < older < W64
    requires l.receiver.client == !l.sender.client && Listening(l.receiver) && !l.receiver.gotFirst
    requires l.payloads[older] != []
    ensures Legal(l, [DeliverStep(W64), DeliverStep(older)])
    ensures var m := Run(l, [DeliverStep(W64), DeliverStep(older)]);
      && m.sent == l.sent && m.payloads == l.payloads
      && m.accepted == l.accepted + [(0, l.payloads[W64]), (older, l.payloads[older])]
  {
    hide Judge, Overlay, Carries;
    var r := l.receiver;
    assert |l.payloads[older]| <= |l.payloads[W64]|;
    CarriedPacketJudged(r.client, false, r.last, l.sent[W64], 0, l.payloads[W64]);
    CarriedPacketJudged(r.client, true, 0, l.sent[older], older, l.payloads[older]);
    var m := Arrive(l, l.sent[W64]);
    assert m == Apply(l, DeliverStep(W64));
    var steps := [DeliverStep(W64), DeliverStep(older)];
    var tail := steps[1..];
    assert steps[0] == DeliverStep(W64) && tail == [DeliverStep(older)] && tail[1..] == [];
    assert m.receiver.last == 0 && m.receiver.gotFirst && m.sent == l.sent;
    assert Legal(m, tail);
    assert Run(m, tail) == Run(Apply(m, DeliverStep(older)), tail[1..]);
  }

  function Sends(n: nat): seq<Step> { seq(n, _ => SendStep) }

  lemma {:induction false} RunConcat(l: Link, a: seq<Step>, b: seq<Step>)
    requires Legal(l, a) && Legal(Run(l, a), b)
    ensures Legal(l, a + b) && Run(l, a + b) == Run(Run(l, a), b)
    decreases a
  {
    if a == [] {
      assert a + b == b;
    } else {
      hide Apply, Enabled;
      assert (a + b)[1..] == a[1..] + b;
      RunConcat(Apply(l, a[0]), a[1..], b);
    }
  }

  lemma SendFacts(l: Link)
    requires l.sender.counter < W64
    ensures var m := Apply(l, SendStep);
      && |m.sent| == |l.sent| + 1 && m.payloads == l.payloads + [NextPayload(l.sender)] && m.receiver == l.receiver
      && m.sender.client == l.sender.client && m.sender.counter < W64 && m.sender.data == l.sender.data
      && NextPayload(m.sender) == NextPayload(l.sender)
  {
    hide Overlay, NextDatagram;
  }

  lemma RunOne(l: Link, step: Step)
    requires Enabled(l, step)
    ensures Legal(l, [step]) && Run(l, [step]) == Apply(l, step)
  {
    hide Apply, Enabled;
    assert [step][1..] == [];
  }

  /** What a sender left alone has done after n packets: repeated its payload. */
  ghost predicate Beaconed(l: Link, m: Link, n: nat) {
    && |m.sent| == |l.sent| + n && |l.payloads| <= |m.payloads| && m.payloads[..|l.payloads|] == l.payloads
    && (forall i :: |l.payloads| <= i < |m.payloads| ==> m.payloads[i] == NextPayload(l.sender))
    && m.receiver == l.receiver && m.sender.client == l.sender.client && m.sender.counter < W64
    && m.sender.data == l.sender.data && NextPayload(m.sender) == NextPayload(l.sender)
  }

  lemma BeaconOne(l: Link)
    requires l.sender.counter < W64
    ensures Beaconed(l, Apply(l, SendStep), 1)
  {
    SendFacts(l);
    hide NextPayload, Apply;
    assert Enabled(l, SendStep);
  }

  lemma BeaconJoin(l: Link, k: Link, m: Link, n: nat)
    requires Beaconed(l, k, 1) && Beaconed(k, m, n)
    ensures Beaconed(l, m, n + 1)
  {
    hide NextPayload;
    forall i | 0 <= i < |l.payloads|
      ensures m.payloads[i] == l.payloads[i]
    {
      assert k.payloads[..|l.payloads|][i] == l.payloads[i] && m.payloads[..|k.payloads|][i] == k.payloads[i];
    }
    forall i | |l.payloads| <= i < |m.payloads|
      ensures m.payloads[i] == NextPayload(l.sender)
    {
      if i < |k.payloads| {
        assert m.payloads[..|k.payloads|][i] == k.payloads[i];
      }
    }
  }

  lemma {:induction false} BeaconRun(l: Link, n: nat)
    requires Inv(l) && l.sender.counter < W64
    ensures Legal(l, Sends(n))
    ensures var m := Run(l, Sends(n)); Inv(m) && Beaconed(l, m, n)
    decreases n
  {
    if n > 0 {
      var k := Apply(l, SendStep);
      assert Enabled(l, SendStep);
      SendKeepsInv(l);
      BeaconOne(l);
      assert k.sender.counter < W64;
      hide Apply, Enabled, Inv, Beaconed;
      assert Sends(n)[1..] == Sends(n - 1);
      BeaconRun(k, n - 1);
      BeaconJoin(l, k, Run(k, Sends(n - 1)), n - 1);
    }
  }

  /** The second payload of the witness below goes out after the first has gone out n times. */
  lemma AfterTheFirst(client: bool, n: nat) returns (steps: seq<Step>)
    ensures Legal(NewLink(client, 0, [0], CONNECTING), steps)
    ensures var m := Run(NewLink(client, 0, [0], CONNECTING), steps);
      && Inv(m) && |m.sent| == |m.payloads| == n + 1 && m.payloads[n] == [1]
      && (forall i :: 0 <= i < n ==> m.payloads[i] == [0])
      && m.receiver.client == client && m.sender.counter < W64
  {
    var l := NewLink(client, 0, [0], CONNECTING);
    NewLinkInv(client, 0, [0], CONNECTING);
    assert l.sender.counter < W64 && l.sender.data == [0] && NextPayload(l.sender) == [0];
    assert l.sent == [] && l.payloads == [] && l.receiver.client == client;
    hide NewLink, NextPayload, Apply, Sends;
    BeaconRun(l, n);
    var m := Run(l, Sends(n));
    InvLengths(m);
    hide Inv;
    var tail := WritesAndSends(m);
    RunConcat(l, Sends(n), tail);
    steps := Sends(n) + tail;
  }

  lemma InvLengths(l: Link)
    requires Inv(l)
    ensures |l.sent| == |l.payloads|
  {}

  lemma WritesAndSends(l: Link) returns (steps: seq<Step>)
    requires Inv(l) && l.sender.counter < W64 && l.sender.data == [0] && NextPayload(l.sender) == [0]
    ensures Legal(l, steps)
    ensures var m := Run(l, steps);
      && Inv(m) && |m.sent| == |l.sent| + 1 == |m.payloads| && m.payloads == l.payloads + [[1]]
      && m.receiver == l.receiver && m.sender.counter < W64
  {
    var w := Apply(l, WriteStep([1]));
    WriteKeepsInv(l, [1]);
    assert NextPayload(w.sender) == [1];
    SendKeepsInv(w);
    SendFacts(w);
    RunOne(l, WriteStep([1]));
    RunOne(w, SendStep);
    hide Inv;
    RunConcat(l, [WriteStep([1])], [SendStep]);
    steps := [WriteStep([1])] + [SendStep];
  }

  /** Such a state is reached: from two new sockets, with the order broken at the end. */
  lemma WrapReached(client: bool, older: nat) returns (steps: seq<Step>)
    requires 0 < older < W64
    ensures var l := NewLink(client, 0, [0], CONNECTING); Legal(l, steps)
    ensures var m := Run(NewLink(client, 0, [0], CONNECTING), steps);
      && |m.sent| == |m.payloads| == W64 + 1 && m.accepted == [(0, m.payloads[W64]), (older, m.payloads[older])]
      && m.payloads[0] != m.payloads[W64]
  {
    var l := NewLink(client, 0, [0], CONNECTING);
    var first := AfterTheFirst(client, W64);
    var m := Run(l, first);
    var last := ConnectsAndBreaks(m, older);
    RunConcat(l, first, last);
    steps := first + last;
  }

  lemma ConnectsAndBreaks(l: Link, older: nat) returns (steps: seq<Step>)
    requires Inv(l) && |l.sent| > W64 && 0 < older < W64 && l.payloads[older] != []
    ensures Legal(l, steps)
    ensures var m := Run(l, steps);
      && m.sent == l.sent && m.payloads == l.payloads
      && m.accepted == [(0, l.payloads[W64]), (older, l.payloads[older])]
  {
    var deliver := [DeliverStep(W64), DeliverStep(older)];
    var c := Apply(l, ConnectStep(0));
    ConnectKeepsInv(l, 0);
    RunOne(l, ConnectStep(0));
    WrapBreaksOrder(c, older);
    hide Inv, Apply, WellFormed;
    RunConcat(l, [ConnectStep(0)], deliver);
    steps := [ConnectStep(0)] + deliver;
  }

  /** No run of two new sockets with at most n packets gets the order or the payloads wrong. */
  ghost predicate AlwaysInOrder(n: nat) {
    forall client, port, payload, conn, steps ::
      Legal(NewLink(client, port, payload, conn), steps) && |Run(NewLink(client, port, payload, conn), steps).sent| <= n
      ==> StaysInOrder(client, port, payload, conn, steps)
  }

  ghost predicate StaysInOrder(client: bool, port: nat, payload: seq<Byte>, conn: Conn, steps: seq<Step>)
    requires Legal(NewLink(client, port, payload, conn), steps)
  {
    var m := Run(NewLink(client, port, payload, conn), steps);
    InOrder(m.payloads, m.accepted)
  }

  /** The exact bound: 2^64 packets, the reach of the index. */
  lemma {:induction false} InOrderIffNoWrap(n: nat)
    ensures AlwaysInOrder(n) <==> n <= W64
  {
    hide Legal, InOrder, NewLink;
    if n <= W64 {
      forall client, port, payload, conn, steps |
        Legal(NewLink(client, port, payload, conn), steps) && |Run(NewLink(client, port, payload, conn), steps).sent| <= n
        ensures StaysInOrder(client, port, payload, conn, steps)
      {
        AtMostOnceInOrder(client, port, payload, conn, steps);
      }
    } else {
      var steps := WrapReached(true, 1);
      WrapNotInOrder(true, 1, steps);
    }
  }

  lemma {:induction false} WrapNotInOrder(client: bool, older: nat, steps: seq<Step>)
    requires Legal(NewLink(client, 0, [0], CONNECTING), steps)
    requires var m := Run(NewLink(client, 0, [0], CONNECTING), steps);
      && |m.payloads| > W64 > older && m.accepted == [(0, m.payloads[W64]), (older, m.payloads[older])]
      && m.payloads[0] != m.payloads[W64]
    ensures !StaysInOrder(client, 0, [0], CONNECTING, steps)
  {
    hide Run, NewLink, Legal;
    var m := Run(NewLink(client, 0, [0], CONNECTING), steps);
    assert m.accepted[0] == (0, m.payloads[W64]);
  }

  /** And the last index before the wrap silences the receiver for good. */
  lemma WrapSilences(client: bool, d: seq<Byte>)
    ensures !Judge(client, true, W64 - 1, d).Good?
  {
    if WellFormed(client, d) {
      var h := Decode(d[..HEADER_SIZE]);
      assert h.indexH <= W32 - 1 && h.indexL <= W32 - 1;
    }
  }

  function WriteAll(s: Sender, writes: seq<seq<Byte>>): Sender {
    if writes == [] then s else Write(WriteAll(s, writes[..|writes| - 1]), writes[|writes| - 1])
  }

  /** The next packet after some writes carries all of them, overlaid. With LastWriteIsSent:
      the last message goes out as written exactly if no earlier one was longer. */
  lemma {:induction false} WritesReachTheWire(s: Sender, writes: seq<seq<Byte>>)
    requires |s.out| <= |s.data|
    ensures var t := WriteAll(s, writes);
      && t.data == OverlayAll([s.data] + writes) && t.out == s.out && |s.out| <= |t.data|
      && (writes != [] ==> NextPayload(t) == OverlayAll([s.data] + writes))
    decreases |writes|
  {
    if writes == [] {
      assert [s.data] + writes == [s.data];
      assert [s.data][..0] == [];
    } else {
      var n := |writes| - 1;
      WritesReachTheWire(s, writes[..n]);
      assert ([s.data] + writes)[..|writes|] == [s.data] + writes[..n];
    }
  }

  // ------------------------------------------------------------ the socket

  class RdcpSocket {
    var connState: Conn
    /** The ConnectionStateChangedEvents notified so far. */
    var events: seq<(Conn, Conn)>
    var isClient: bool
    var sendAddress: int

    // Sender
    var remotePort: nat
    var outData: seq<Byte>
    var outFired: bool
    var sendBuffer: seq<Byte>
    var packetCounter: nat

    // Receiver
    var gotFirstPacket: bool
    var lastSeqNumber: nat
    var numBadPackets: nat
    var inData: seq<Byte>
    var msgAvail: bool
    var inFired: bool
    var faultState: bool

    ghost predicate Valid()
      reads this
    {
      packetCounter < W64
    }

    ghost function SenderView(): Sender
      reads this
    {
      Sender(isClient, remotePort, outData, outFired, sendBuffer, packetCounter)
    }

    ghost function ReceiverView(): Receiver
      reads this
    {
      Receiver(isClient, connState, gotFirstPacket, lastSeqNumber, numBadPackets, inData, msgAvail, inFired, faultState)
    }

    /** `memory` is what the state field held before: no constructor sets it, and the request
        for DISCONNECTED made here is subject to the guard. */
    constructor (memory: Conn, payload: seq<Byte>)
      ensures Valid() && connState == SetState(memory, DISCONNECTED)
      ensures SenderView() == Write(Sender(true, 0, [], false, [], 0), payload)
    {
      isClient, sendAddress, remotePort := true, 0, 0;
      outData, outFired, sendBuffer, packetCounter := payload, true, [], 0;
      gotFirstPacket, lastSeqNumber, numBadPackets := false, 0, 0;
      inData, msgAvail, inFired, faultState := [], false, false, false;
      connState, events := memory, [];
      new;
      SetConnectionState(DISCONNECTED);
    }

    method SetConnectionState(newState: Conn)
      modifies this`connState, this`events
      ensures connState == SetState(old(connState), newState)
      ensures connState == old(connState) || connState == newState
      ensures newState == CONNECTED && old(connState) != CONNECTING ==> connState == old(connState)
      ensures newState == DISCONNECTED && old(connState) != DISCONNECTING ==> connState == old(connState)
      ensures newState != CONNECTED && newState != DISCONNECTED ==> connState == newState
      ensures newState == CONNECTED && old(connState) == CONNECTING ==> connState == CONNECTED
      ensures newState == DISCONNECTED && old(connState) == DISCONNECTING ==> connState == DISCONNECTED
      ensures events == old(events) + if connState == old(connState) then [] else [(old(connState), connState)]
    {
      if connState != newState {
        if !((newState == CONNECTED && connState != CONNECTING) || (newState == DISCONNECTED && connState != DISCONNECTING)) {
          var oldState := connState;
          connState := newState;
          events := events + [(oldState, newState)];
        }
      }
    }

    /** connect, up to the start of the two threads. */
    method Connect(client: bool, address: int, port: nat)
      requires Valid()
      modifies this
      ensures Valid() && sendAddress == address
      ensures connState == CONNECTING && !gotFirstPacket && !msgAvail && !faultState && numBadPackets == 0
      ensures ReceiverView() == Reset(client, old(inData), old(lastSeqNumber), old(inFired))
      ensures SenderView() == old(SenderView()).(client := client, port := port)
    {
      isClient, sendAddress, remotePort := client, address, port;
      SetConnectionState(CONNECTING);
      ResetReceiver();
    }

    /** Receiver::reset */
    method ResetReceiver()
      modifies this`gotFirstPacket, this`msgAvail, this`faultState, this`numBadPackets
      ensures !gotFirstPacket && !msgAvail && !faultState && numBadPackets == 0
    {
      gotFirstPacket, msgAvail, faultState, numBadPackets := false, false, false, 0;
    }

    method Disconnect()
      modifies this`connState, this`events
      ensures ReceiverView() == Disconnected(old(ReceiverView())) && SenderView() == old(SenderView())
      ensures connState == if old(connState) == DISCONNECTING then DISCONNECTING else DISCONNECTED
      ensures events == old(events) + if old(connState) == DISCONNECTED || old(connState) == DISCONNECTING then []
        else [(old(connState), DISCONNECTING), (DISCONNECTING, DISCONNECTED)]
    {
      if connState == DISCONNECTED || connState == DISCONNECTING {
        return;
      }
      SetConnectionState(DISCONNECTING);
      SetConnectionState(DISCONNECTED);
    }

    method SetFaultState()
      modifies this`connState, this`events, this`faultState, this`inFired
      ensures connState == FAULT && faultState && inFired
      ensures events == old(events) + if old(connState) == FAULT then [] else [(old(connState), FAULT)]
    {
      SetConnectionState(FAULT);
      faultState, inFired := true, true;
    }

    /** Sender::run. `fails` stands for an exception from the socket below; then the packet is
        lost, and its index is used again. */
    method SenderRun(fails: bool) returns (packet: Option<seq<Byte>>)
      requires Valid()
      modifies this
      ensures Valid()
      ensures !Listening(old(ReceiverView())) ==>
        packet == None && SenderView() == old(SenderView()) && ReceiverView() == old(ReceiverView())
      ensures Listening(old(ReceiverView())) && !fails ==> packet == Some(NextDatagram(old(SenderView())))
      ensures Listening(old(ReceiverView())) && !fails ==>
        SenderView() == Sent(old(SenderView())) && ReceiverView() == old(ReceiverView())
      ensures Listening(old(ReceiverView())) && fails ==> packet == None && connState == FAULT
      ensures Listening(old(ReceiverView())) && fails ==>
        SenderView() == FailedSend(old(SenderView()))
    {
      hide Encode, Overlay;
      if connState != CONNECTED && connState != CONNECTING {
        return None;
      }
      if outFired {
        sendBuffer := Overlay(outData, sendBuffer);
      }
      outFired := false;
      var signature := if isClient then CLIENT_TO_SERVER else SERVER_TO_CLIENT;
      var header := Header(signature, remotePort % W16, packetCounter / W32, packetCounter % W32);
      if fails {
        SetFaultState();
        return None;
      }
      packet := Some(Encode(header) + sendBuffer);
      packetCounter := (packetCounter + 1) % W64;
    }

    /** The checks of Receiver::run on a datagram. */
    method Inspect(d: seq<Byte>) returns (error: bool, seqNumber: nat, follow: bool)
      ensures error <==> !WellFormed(isClient, d)
      ensures |d| <= HEADER_SIZE ==> error
      ensures |d| > HEADER_SIZE && isClient ==> (error <==> Decode(d[..HEADER_SIZE]).signature !in {0x7EED, 0xFEED})
      ensures |d| > HEADER_SIZE && !isClient ==> (error <==> Decode(d[..HEADER_SIZE]).signature != 0xC0DE)
      ensures !error ==> |d| > HEADER_SIZE && seqNumber == IndexOf(Decode(d[..HEADER_SIZE]))
      ensures !error ==> (follow <==> isClient && Decode(d[..HEADER_SIZE]).signature < 0x8000)
    {
      error, seqNumber, follow := false, 0, false;
      if |d| <= HEADER_SIZE {
        error := true;
      } else {
        var header := Decode(d[..HEADER_SIZE]);
        var expectedSignature := if isClient then SERVER_TO_CLIENT else CLIENT_TO_SERVER;
        var receivedSignature := header.signature;
        if isClient {
          receivedSignature, expectedSignature := receivedSignature % 0x8000, expectedSignature % 0x8000;
        }
        if receivedSignature != expectedSignature {
          error := true;
        } else {
          seqNumber := header.indexH * W32 + header.indexL;
          follow := isClient && header.signature < 0x8000;
        }
      }
    }

    method CountError()
      requires connState == CONNECTED || connState == CONNECTING
      modifies this`numBadPackets, this`connState, this`events, this`faultState, this`inFired
      ensures numBadPackets == old(numBadPackets) + 1
      ensures numBadPackets >= Limit(old(connState)) ==> connState == FAULT && faultState && inFired
      ensures numBadPackets < Limit(old(connState)) ==>
        connState == old(connState) && faultState == old(faultState) && inFired == old(inFired)
    {
      numBadPackets := numBadPackets + 1;
      if numBadPackets >= if connState == CONNECTED then BAD_WHILE_CONNECTED else BAD_WHILE_CONNECTING {
        SetFaultState();
      }
    }

    method TakePacket(seqNumber: nat, payload: seq<Byte>)
      requires connState == CONNECTED || connState == CONNECTING
      modifies this
      ensures ReceiverView() == old(ReceiverView()).(conn := CONNECTED, bad := 0, last := seqNumber, gotFirst := true,
          buffer := Overlay(payload, old(inData)), avail := true, fired := true)
      ensures SenderView() == old(SenderView()) && sendAddress == old(sendAddress)
    {
      SetConnectionState(CONNECTED);
      numBadPackets, lastSeqNumber, gotFirstPacket := 0, seqNumber, true;
      inData := Overlay(payload, inData);
      msgAvail, inFired := true, true;
    }

    /** Receiver::run on what the socket below returned: no bytes after a timeout. A client
        sends to whoever answered it first, unless the top bit of the signature forbids. */
    method ReceiverRun(d: seq<Byte>, from: int)
      requires Valid()
      modifies this
      ensures Valid() && SenderView() == old(SenderView())
      ensures ReceiverView() == Receive(old(ReceiverView()), d)
      ensures connState == FAULT && old(connState) != FAULT ==> faultState && inFired
      ensures sendAddress == if isClient && !old(gotFirstPacket) && gotFirstPacket
        && Decode(d[..HEADER_SIZE]).signature < 0x8000 then from else old(sendAddress)
    {
      hide WellFormed, Overlay, Decode;
      if connState != CONNECTED && connState != CONNECTING {
        return;
      }
      var error, seqNumber, follow := Inspect(d);
      if error {
        CountError();
      } else if !(gotFirstPacket && seqNumber <= lastSeqNumber) {
        if follow && !gotFirstPacket {
          sendAddress := from;
        }
        TakePacket(seqNumber, d[HEADER_SIZE..]);
      }
    }

    method WritePayload(bytes: seq<Byte>, maxPayload: nat) returns (written: Option<nat>)
      requires Valid()
      modifies this`outData, this`outFired
      ensures Valid()
      ensures connState != CONNECTED ==> written == Some(0) && SenderView() == old(SenderView())
      ensures connState == CONNECTED && |bytes| > maxPayload ==> written == None && SenderView() == old(SenderView())
      ensures connState == CONNECTED && |bytes| <= maxPayload ==>
        written == Some(|bytes|) && SenderView() == Write(old(SenderView()), bytes)
    {
      if connState != CONNECTED {
        return Some(0);
      }
      if |bytes| > maxPayload {
        return None;
      }
      outData, outFired := Overlay(bytes, outData), true;
      return Some(|bytes|);
    }

    /** read, if no packet comes in while it waits: the wait ends at once when the condition
        has fired, and otherwise with the timeout. */
    method Read(lengthBytes: nat) returns (bytes: seq<Byte>)
      requires Valid()
      modifies this`msgAvail, this`inFired
      ensures Valid() && SenderView() == old(SenderView())
      ensures connState != CONNECTED ==> bytes == [] && ReceiverView() == old(ReceiverView())
      ensures connState == CONNECTED && old(msgAvail && inFired && !faultState) ==>
        bytes == inData[..if lengthBytes <= |inData| then lengthBytes else |inData|]
      ensures !old(msgAvail && inFired && !faultState) ==> bytes == []
      ensures connState == CONNECTED ==> !msgAvail && !inFired
      ensures connState == CONNECTED ==>
        bytes == ReadResult(old(ReceiverView()), lengthBytes) && ReceiverView() == AfterRead(old(ReceiverView()))
    {
      if connState != CONNECTED {
        return [];
      }
      var timeout := !inFired;
      inFired := false;
      if !timeout && !faultState && !msgAvail {
        timeout := true;
      }
      bytes := [];
      if msgAvail && !timeout && !faultState {
        bytes := inData[..if lengthBytes <= |inData| then lengthBytes else |inData|];
      }
      msgAvail := false;
    }
  }
}
