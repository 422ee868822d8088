/** Resynchronisation of the client's video channel (VideoChannel.cpp): finding the next frame
    signature in a byte stream that arrives in pieces of any size. */
module VideoSync {
  import opened Memory
  import opened Rdcp
  import opened Wrappers
  import Masks

  const SIGNATURE_HIGH: Byte := 0x91
  const SIGNATURE_LOW: Byte := 0xC7

  predicate SignatureAt(s: seq<Byte>, i: nat) {
    i + 1 < |s| && s[i] == SIGNATURE_HIGH && s[i + 1] == SIGNATURE_LOW
  }

  /** The first signature that starts at `i` or later and lies in `s` as a whole. */
  function FirstSignature(s: seq<Byte>, i: nat): (r: Option<nat>)
    requires i <= |s|
    ensures r.Some? ==> i <= r.value && SignatureAt(s, r.value) && forall j :: i <= j < r.value ==> !SignatureAt(s, j)
    ensures r == None ==> forall j :: i <= j ==> !SignatureAt(s, j)
    decreases |s| - i
  {
    if i + 1 >= |s| then None
    else if SignatureAt(s, i) then Some(i)
    else FirstSignature(s, i + 1)
  }

  /** What one syncFrame on `length` bytes makes of the stream, if the stream does not fail:
      where the frame starts, and what is left. */
  datatype Outcome = Outcome(start: Option<nat>, rest: seq<Byte>)

  function Attempt(s: seq<Byte>, length: nat): Outcome
    requires length <= |s|
  {
    match FirstSignature(s[..length], 0)
    case None => Outcome(None, s[length..])
    case Some(i) => if i + length <= |s| then Outcome(Some(i), s[i + length..]) else Outcome(None, [])
  }

  // ------------------------------------------------------------ repeated attempts

  /** Where syncFrame, called again and again, first finds a frame: counted from the start of
      the stream. */
  function Search(s: seq<Byte>, length: nat): Option<nat>
    requires length > 0
    decreases |s|
  {
    if |s| < length then None
    else
      var o := Attempt(s, length);
      if o.start.Some? then o.start else Shifted(Search(o.rest, length), |s| - |o.rest|)
  }

  /** A place counted from a later start. */
  function Shifted(r: Option<nat>, shift: nat): Option<nat> {
    match r
    case None => None
    case Some(j) => Some(shift + j)
  }

  predicate FirstAt(s: seq<Byte>, d: nat) {
    SignatureAt(s, d) && forall j :: 0 <= j < d ==> !SignatureAt(s, j)
  }

  lemma SignatureInWindow(s: seq<Byte>, length: nat, j: nat)
    requires length <= |s|
    ensures SignatureAt(s[..length], j) <==> SignatureAt(s, j) && j + 1 < length
    ensures SignatureAt(s[length..], j) <==> SignatureAt(s, length + j)
  {}

  lemma WindowBefore(s: seq<Byte>, length: nat, d: nat)
    requires 0 < length <= |s| && FirstAt(s, d) && d + 1 >= length
    ensures FirstSignature(s[..length], 0) == None
  {
    var r := FirstSignature(s[..length], 0);
    if r.Some? {
      SignatureInWindow(s, length, r.value);
    }
  }

  lemma NextWindow(d: nat, length: nat)
    requires 0 < length <= d
    ensures (d - length) % length == d % length
  {
    var q, r := d / length, d % length;
    assert (q - 1) * length == q * length - length;
    Masks.DivUnique(d - length, q - 1, r, length);
  }

  /** Repeated attempts lock onto the first signature of the stream, wherever it is, exactly
      unless its first byte is the last one of a window. */
  lemma {:induction false} LocksOntoFirst(s: seq<Byte>, length: nat, d: nat)
    requires length > 1 && FirstAt(s, d) && d + length <= |s|
    ensures Search(s, length) == Some(d) <==> d % length != length - 1
    decreases |s|
  {
    hide FirstSignature, FirstAt, Attempt;
    if d + 1 < length {
      FirstInWindow(s, length, d);
      SearchHere(s, length, d);
      Masks.DivUnique(d, 0, d, length);
    } else {
      WindowBefore(s, length, d);
      SearchOn(s, length);
      if d + 1 == length {
        Masks.DivUnique(d, 0, d, length);
      } else {
        NextWindow(d, length);
        FirstInTail(s, length, d);
        LocksOntoFirst(s[length..], length, d - length);
      }
    }
  }

  lemma FirstInWindow(s: seq<Byte>, length: nat, d: nat)
    requires FirstAt(s, d) && d + 1 < length <= |s|
    ensures FirstSignature(s[..length], 0) == Some(d)
  {
    var r := FirstSignature(s[..length], 0);
    SignatureInWindow(s, length, d);
    if r.Some? {
      SignatureInWindow(s, length, r.value);
    }
  }

  lemma FirstInTail(s: seq<Byte>, length: nat, d: nat)
    requires FirstAt(s, d) && length <= d
    ensures FirstAt(s[length..], d - length)
  {
    forall j | 0 <= j < d - length
      ensures !SignatureAt(s[length..], j)
    {
      SignatureInWindow(s, length, j);
    }
    SignatureInWindow(s, length, d - length);
  }

  lemma SearchHere(s: seq<Byte>, length: nat, i: nat)
    requires 0 < length <= |s| && FirstSignature(s[..length], 0) == Some(i) && i + length <= |s|
    ensures Search(s, length) == Some(i)
  {
    hide FirstSignature;
  }

  lemma SearchOn(s: seq<Byte>, length: nat)
    requires 0 < length <= |s| && FirstSignature(s[..length], 0) == None
    ensures Search(s, length) == Shifted(Search(s[length..], length), length)
  {
    hide FirstSignature;
  }

  /** In every case, what is found is a signature. */
  lemma {:induction false} FindsSignature(s: seq<Byte>, length: nat)
    requires length > 0 && Search(s, length).Some?
    ensures var d := Search(s, length).value; SignatureAt(s, d) && d + length <= |s|
    decreases |s|
  {
    var r := FirstSignature(s[..length], 0);
    if r.Some? {
      SignatureInWindow(s, length, r.value);
    } else {
      FindsSignature(s[length..], length);
      SignatureInWindow(s, length, Search(s[length..], length).value);
    }
  }

  // ------------------------------------------------------------ the channel

  class VideoChannel {
    /** The bytes still to come; the socket hands them over in pieces of its own choice. */
    var stream: seq<Byte>

    constructor (stream: seq<Byte>)
      ensures this.stream == stream
    {
      this.stream := stream;
    }

    /** recv: up to `max` bytes, or none after an error or a timeout. */
    method Recv(max: nat) returns (data: seq<Byte>)
      modifies this
      ensures |data| <= max && |data| <= |old(stream)|
      ensures data == old(stream)[..|data|] && stream == old(stream)[|data|..]
    {
      var k :| 0 <= k <= max && k <= |stream|;
      data := stream[..k];
      stream := stream[k..];
    }

    /** readData: all the bytes asked for, in stream order, however they are split; or failure
        after some of them. */
    method ReadData(buffer: array<Byte>, start: nat, length: nat) returns (ok: bool)
      requires start + length <= buffer.Length
      modifies this, buffer
      ensures ok ==> length <= |old(stream)| && stream == old(stream)[length..]
      ensures ok ==> buffer[..] == old(buffer[..start]) + old(stream)[..length] + old(buffer[start + length..])
      ensures !ok ==> exists n :: 0 <= n < length && n <= |old(stream)| && stream == old(stream)[n..]
    {
      var remaining, offset := length, 0;
      ghost var s, before := stream, buffer[..];
      while remaining > 0
        invariant 0 <= offset && 0 <= remaining && offset + remaining == length && offset <= |s|
        invariant stream == s[offset..]
        invariant buffer[..] == before[..start] + s[..offset] + before[start + offset..]
      {
        var data := Recv(remaining);
        if |data| == 0 {
          return false;
        }
        MemCopy(buffer, start + offset, data);
        JoinsOn(before, start, s, offset, |data|);
        offset := offset + |data|;
        remaining := remaining - |data|;
      }
      return true;
    }

    /** The search loop of syncFrame. */
    method FindSignature(buffer: array<Byte>) returns (found: bool, i: nat)
      requires buffer.Length > 0
      ensures i < buffer.Length && FirstSignature(buffer[..], 0) == if found then Some(i) else None
    {
      i, found := 0, false;
      while i < buffer.Length - 1
        invariant 0 <= i <= buffer.Length - 1 && !found
        invariant FirstSignature(buffer[..], 0) == FirstSignature(buffer[..], i)
      {
        if buffer[i] == SIGNATURE_HIGH && buffer[i + 1] == SIGNATURE_LOW {
          return true, i;
        }
        i := i + 1;
      }
    }

    /** Its shift loop. */
    method ShiftDown(buffer: array<Byte>, i: nat)
      requires i <= buffer.Length
      modifies buffer
      ensures buffer[..] == old(buffer[i..]) + old(buffer[buffer.Length - i..])
    {
      var j := 0;
      while j < buffer.Length - i
        invariant 0 <= j <= buffer.Length - i
        invariant forall k :: 0 <= k < buffer.Length ==> buffer[k] == if k < j then old(buffer[k + i]) else old(buffer[k])
      {
        buffer[j] := buffer[i + j];
        j := j + 1;
      }
      assert buffer[..] == old(buffer[i..]) + old(buffer[buffer.Length - i..]);
    }

    /** syncFrame: on success the buffer has as many consecutive bytes of the stream as it
        holds, from the first signature of the first window on, and the bytes before it are
        dropped. Unless a read has failed, it succeeds exactly if the window has a signature. */
    method SyncFrame(buffer: array<Byte>) returns (found: bool, ghost failed: bool)
      requires buffer.Length > 0
      modifies this, buffer
      ensures found ==> !failed
      ensures !failed ==> buffer.Length <= |old(stream)| && stream == Attempt(old(stream), buffer.Length).rest
      ensures !failed ==> (found <==> Attempt(old(stream), buffer.Length).start.Some?)
      ensures found ==> buffer[..] == Window(old(stream), Attempt(old(stream), buffer.Length).start.value, buffer.Length)
      ensures found ==> buffer.Length > 1 && buffer[0] == 0x91 && buffer[1] == 0xC7
      ensures exists n :: 0 <= n <= |old(stream)| && n < 2 * buffer.Length && stream == old(stream)[n..]
    {
      hide SignatureAt, Attempt, Window;
      ghost var s, length := stream, buffer.Length;
      found := ReadData(buffer, 0, buffer.Length);
      failed := !found;
      if !found {
        return;
      }
      assert buffer[..] == s[..length];
      var i;
      found, i := FindSignature(buffer);
      if found && i > 0 {
        ShiftDown(buffer, i);
        found := ReadData(buffer, buffer.Length - i, i);
        failed := !found;
      }
      if found {
        FoundAt(s, i, length);
      } else if !failed {
        NotFound(s, length);
      }
    }

    /** The thread loop: syncFrame again and again. As long as no read fails, it stops at the
        frame that Search specifies, or is still on its way there. */
    method Resync(buffer: array<Byte>, attempts: nat) returns (found: bool, ghost failed: bool)
      requires buffer.Length > 0
      modifies this, buffer
      ensures !failed && found ==> Search(old(stream), buffer.Length).Some?
      ensures !failed && found ==> buffer[..] == Window(old(stream), Search(old(stream), buffer.Length).value, buffer.Length)
      ensures !failed && found ==> |stream| + Search(old(stream), buffer.Length).value + buffer.Length == |old(stream)|
      ensures !failed ==> |stream| <= |old(stream)| && stream == old(stream)[|old(stream)| - |stream|..]
      ensures !failed && !found ==>
        Search(old(stream), buffer.Length) == Shifted(Search(stream, buffer.Length), |old(stream)| - |stream|)
    {
      hide Attempt, Window;
      ghost var s, length := stream, buffer.Length;
      found, failed := false, false;
      var n := 0;
      assert Shifted(Search(s, length), 0) == Search(s, length);
      while n < attempts && !found
        invariant !failed ==> |stream| <= |s| && stream == s[|s| - |stream|..]
        invariant !failed && !found ==> Search(s, length) == Shifted(Search(stream, length), |s| - |stream|)
        invariant !failed && found ==> Search(s, length).Some?
        invariant !failed && found ==> buffer[..] == Window(s, Search(s, length).value, length)
        invariant !failed && found ==> |stream| + Search(s, length).value + length == |s|
      {
        ghost var at := |s| - |stream|;
        ghost var before := failed;
        ghost var now;
        found, now := SyncFrame(buffer);
        failed := failed || now;
        if !before && !now {
          SearchStep(s, at, length);
        }
        n := n + 1;
      }
    }
  }

  lemma JoinsOn(before: seq<Byte>, start: nat, s: seq<Byte>, offset: nat, k: nat)
    requires offset + k <= |s| && start + offset + k <= |before|
    ensures var now := before[..start] + s[..offset] + before[start + offset..];
      now[..start + offset] + s[offset..][..k] + now[start + offset + k..]
      == before[..start] + s[..offset + k] + before[start + offset + k..]
  {
    assert s[..offset + k] == s[..offset] + s[offset..][..k];
  }

  lemma AttemptRest(t: seq<Byte>, length: nat)
    requires 0 < length <= |t|
    ensures var o := Attempt(t, length); |o.rest| < |t| && o.rest == t[|t| - |o.rest|..]
    ensures var o := Attempt(t, length); o.start.Some? ==> o.start.value + length + |o.rest| == |t|
  {
    hide FirstSignature;
  }

  lemma DropDrop(s: seq<Byte>, a: nat, b: nat)
    requires a + b <= |s|
    ensures s[a..][b..] == s[a + b..]
  {}

  lemma WindowInTail(s: seq<Byte>, at: nat, i: nat, length: nat)
    requires at + i + length <= |s|
    ensures Window(s[at..], i, length) == Window(s, at + i, length)
  {}

  lemma SearchStep(s: seq<Byte>, at: nat, length: nat)
    requires length > 0 && at <= |s| && length <= |s[at..]|
    ensures var o := Attempt(s[at..], length);
      && |o.rest| <= |s| && o.rest == s[|s| - |o.rest|..]
      && (match o.start
          case None => Search(s[at..], length) == Shifted(Search(o.rest, length), |s[at..]| - |o.rest|)
          case Some(i) =>
            && Search(s[at..], length) == Some(i) && at + i + length <= |s| && o.rest == s[at + i + length..]
            && Window(s[at..], i, length) == Window(s, at + i, length))
  {
    hide Attempt, Window;
    var t := s[at..];
    var o := Attempt(t, length);
    AttemptRest(t, length);
    DropDrop(s, at, |t| - |o.rest|);
    if o.start.Some? {
      WindowInTail(s, at, o.start.value, length);
    }
  }

  function Window(s: seq<Byte>, start: nat, length: nat): seq<Byte> {
    if start + length <= |s| then s[start..start + length] else []
  }

  lemma NotFound(s: seq<Byte>, length: nat)
    requires length <= |s| && FirstSignature(s[..length], 0) == None
    ensures Attempt(s, length) == Outcome(None, s[length..])
  {}

  lemma FoundAt(s: seq<Byte>, i: nat, length: nat)
    requires length <= |s| && FirstSignature(s[..length], 0) == Some(i) && i + length <= |s|
    ensures i < length && Attempt(s, length) == Outcome(Some(i), s[i + length..])
    ensures Window(s, i, length) == s[..length][i..] + s[length..][..i]
    ensures s[length..][i..] == s[i + length..]
    ensures length > 1 && |Window(s, i, length)| == length
    ensures Window(s, i, length)[0] == 0x91 && Window(s, i, length)[1] == 0xC7
  {}
}
