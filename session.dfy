/**
 * What a reader sees over a whole session: successive reads, each handed
 * back what `device_read` copies, concatenate to the message from the
 * cursor on, and once the message is exhausted every read yields nothing.
 */
module Session {
  import opened Decimal
  import opened CharDevice

  function Sum(xs: seq<nat>): nat {
    if xs == [] then 0 else xs[0] + Sum(xs[1..])
  }

  /**
   * The characters handed back by reads of the given lengths, one after the
   * other, starting at `cursor` in message `m`: each read takes as many as
   * it asks for, or as many as are left.
   */
  ghost function Replay(m: string, cursor: nat, lengths: seq<nat>): string
    requires cursor <= |m|
    decreases lengths
  {
    if lengths == [] then []
    else
      var n := Min(lengths[0], |m| - cursor);
      m[cursor..cursor + n] + Replay(m, cursor + n, lengths[1..])
  }

  lemma {:induction false} SumSnoc(xs: seq<nat>, x: nat)
    ensures Sum(xs + [x]) == Sum(xs) + x
  {
    if xs != [] {
      assert (xs + [x])[1..] == xs[1..] + [x];
      SumSnoc(xs[1..], x);
    }
  }

  /** Reads hand back as many characters as they ask for, or as are left. */
  lemma {:induction false} ReplayLength(m: string, cursor: nat, lengths: seq<nat>)
    requires cursor <= |m|
    ensures |Replay(m, cursor, lengths)| == Min(Sum(lengths), |m| - cursor)
    decreases lengths
  {
    if lengths != [] {
      ReplayLength(m, cursor + Min(lengths[0], |m| - cursor), lengths[1..]);
    }
  }

  /** Reads hand back the message from the cursor on, in order. */
  lemma {:induction false} ReplayInOrder(m: string, cursor: nat, lengths: seq<nat>)
    requires cursor <= |m|
    ensures cursor + |Replay(m, cursor, lengths)| <= |m|
    ensures Replay(m, cursor, lengths) == m[cursor..cursor + |Replay(m, cursor, lengths)|]
    decreases lengths
  {
    if lengths != [] {
      var n := Min(lengths[0], |m| - cursor);
      var tail := Replay(m, cursor + n, lengths[1..]);
      ReplayInOrder(m, cursor + n, lengths[1..]);
      assert m[cursor..cursor + n] + m[cursor + n..cursor + n + |tail|] == m[cursor..cursor + n + |tail|];
    }
  }

  /**
   * Successive reads never skip or repeat a character: together they hand
   * back the message from the cursor on, cut off only where the lengths
   * asked for run out. Asking for at least what is left yields all of it.
   */
  lemma {:induction false} ReplayIsMessage(m: string, cursor: nat, lengths: seq<nat>)
    requires cursor <= |m|
    ensures Replay(m, cursor, lengths) == m[cursor..cursor + Min(Sum(lengths), |m| - cursor)]
    ensures |m| - cursor <= Sum(lengths) ==> Replay(m, cursor, lengths) == m[cursor..]
  {
    ReplayLength(m, cursor, lengths);
    ReplayInOrder(m, cursor, lengths);
  }

  /** Once the cursor sits on the terminator, every further read yields nothing. */
  lemma {:induction false} ReplayAtEnd(m: string, lengths: seq<nat>)
    ensures Replay(m, |m|, lengths) == []
    decreases lengths
  {
    if lengths != [] {
      ReplayAtEnd(m, lengths[1..]);
    }
  }

  /**
   * A reader that calls `device_read` once for each of `lengths`, with a
   * buffer of that size, and keeps what each call copied.
   */
  method ReadSession(dev: Device, lengths: seq<nat>) returns (data: string)
    requires dev.Valid() && dev.counter > 0
    modifies dev`msgPtr
    ensures dev.Valid()
    ensures data == Replay(dev.text, old(dev.msgPtr), lengths)
    ensures dev.msgPtr == old(dev.msgPtr) + |data|
  {
    ghost var text := dev.text;
    ghost var start := dev.msgPtr;
    data := [];
    var i := 0;
    while i < |lengths|
      invariant 0 <= i <= |lengths|
      invariant dev.Valid() && dev.text == text
      invariant dev.msgPtr == start + Min(Sum(lengths[..i]), |text| - start)
      invariant data == text[start..dev.msgPtr]
    {
      var buffer := new char[lengths[i]];
      var n := dev.Read(buffer, lengths[i]);
      data := data + buffer[..n];
      assert lengths[..i + 1] == lengths[..i] + [lengths[i]];
      SumSnoc(lengths[..i], lengths[i]);
      i := i + 1;
    }
    assert lengths[..i] == lengths;
    ReplayIsMessage(text, start, lengths);
  }

  /**
   * A first session after load: the message says "1 times", and reads of
   * 10, 100 and 5 bytes return 10, 18 and 0.
   */
  method ExampleFirstSession() {
    var dev := new Device();
    var r := dev.Open();
    assert r == 0 && dev.counter == 1;
    assert dev.text == "I already told you 1 times.\n";
    var buffer := new char[100];
    var n := dev.Read(buffer, 10);
    assert n == 10 && buffer[..10] == "I already ";
    n := dev.Read(buffer, 100);
    assert n == 18 && dev.msgPtr == 28 == |dev.text|;
    n := dev.Read(buffer, 5);
    assert n == 0;
  }

  /**
   * While a session is open a second open is refused and a write fails;
   * after a release the next session says "2 times".
   */
  method ExampleReopen() {
    var dev := new Device();
    var r := dev.Open();
    r := dev.Open();
    assert r == -EBUSY && dev.counter == 1;
    r := dev.Write("hi");
    assert r == -EINVAL;
    r := dev.Release();
    r := dev.Open();
    assert r == 0 && dev.text == "I already told you 2 times.\n";
  }
}
