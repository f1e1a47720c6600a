/**
 * The character device of `main.c`: a single-session latch, a counter of
 * successful opens, an 80-byte message buffer and a read cursor into it.
 * Kernel plumbing (registration, `printk`, user-space addressing) is not
 * part of this model; `put_user` becomes a store into the caller's array.
 */
module CharDevice {
  import opened Decimal

  const BUF_LEN: nat := 80
  /** Largest value of a C `int` (32 bits, two's complement). */
  const INT_MAX: int := 0x7fff_ffff
  const EBUSY: int := 16
  const EINVAL: int := 22
  const NUL: char := '\0'

  /** The text of the `sprintf` template before and after `%d`. */
  const Prefix: string := "I already told you "
  const Suffix: string := " times.\n"

  /** The greeting `device_open` formats for the `n`-th successful open. */
  function Message(n: nat): (m: string)
    ensures |m| == 27 + |DecimalString(n)|
  {
    Prefix + DecimalString(n) + Suffix
  }

  /** The message holds no NUL, so the C string in `msg` is all of it. */
  lemma MessageHasNoNul(n: nat)
    ensures forall i :: 0 <= i < |Message(n)| ==> Message(n)[i] != NUL
  {
  }

  /** `buf` holds the C string `s`: its characters, then the terminator. */
  ghost predicate StoresCString(buf: seq<char>, s: string) {
    |s| < |buf| && buf[..|s|] == s && buf[|s|] == NUL
  }

  /** The counter sits between the fixed prefix and suffix of its message. */
  lemma MessageDigits(n: nat)
    ensures |Message(n)| == |Prefix| + |DecimalString(n)| + |Suffix|
    ensures Message(n)[|Prefix|..|Message(n)| - |Suffix|] == DecimalString(n)
  {
  }

  /** Different counters give different messages: each open's text is new. */
  lemma MessageInjective(a: nat, b: nat)
    ensures Message(a) == Message(b) <==> a == b
  {
    MessageDigits(a);
    MessageDigits(b);
    DecimalStringInjective(a, b);
  }

  /**
   * The message and its terminator fit in the `BUF_LEN` buffer for every
   * counter an `int` can hold: at most 10 digits, so at most 38 bytes.
   */
  lemma MessageFits(n: nat)
    requires n <= INT_MAX
    ensures |Message(n)| + 1 <= 38 <= BUF_LEN
  {
    DecimalStringLength(n, 10);
    MessageDigits(n);
  }

  class Device {
    /** `Device_Open`: the number of sessions now open. */
    var deviceOpen: int
    /** The static `counter` of `device_open`: successful opens so far. */
    var counter: int
    /** `msg`: the message buffer. */
    const msg: array<char>
    /** `msg_Ptr`, as an index into `msg`; NULL until the first open. */
    var msgPtr: nat
    /** Module references taken by `try_module_get` and not yet dropped. */
    var moduleRefs: int
    /** The C string `msg` holds: the message of the current (or last) session. */
    ghost var text: string

    ghost predicate Valid()
      reads this, msg
    {
      && msg.Length == BUF_LEN
      && 0 <= deviceOpen <= 1
      && moduleRefs == deviceOpen
      && 0 <= counter <= INT_MAX
      && (counter == 0 ==> deviceOpen == 0 && text == [])
      && |text| < msg.Length && msg[|text|] == NUL
      && (forall i :: 0 <= i < |text| ==> msg[i] == text[i] != NUL)
      && msgPtr <= |text|
    }

    /**
     * The C string in `msg` is the greeting for the current counter. Kept
     * apart from `Valid()` because only `Open` changes what it reads.
     */
    ghost predicate Greeting()
      reads this`counter, this`text
    {
      counter > 0 ==> text == Message(counter)
    }

    /** Module load: nothing opened yet, the static buffer zero-filled. */
    constructor ()
      ensures Valid() && Greeting() && fresh(msg)
      ensures deviceOpen == 0 && counter == 0 && moduleRefs == 0
      ensures forall i :: 0 <= i < msg.Length ==> msg[i] == NUL
    {
      deviceOpen := 0;
      counter := 0;
      msg := new char[BUF_LEN](_ => NUL);
      msgPtr := 0;
      moduleRefs := 0;
      text := [];
    }

    /** `device_open`. */
    method Open() returns (r: int)
      requires Valid() && Greeting()
      requires deviceOpen == 0 ==> counter < INT_MAX
      modifies this, msg
      ensures Valid() && Greeting()
      ensures old(deviceOpen) != 0 ==>
        && r == -EBUSY
        && deviceOpen == old(deviceOpen) && counter == old(counter)
        && msgPtr == old(msgPtr) && moduleRefs == old(moduleRefs)
        && text == old(text) && msg[..] == old(msg[..])
      ensures old(deviceOpen) == 0 ==>
        && r == 0
        && deviceOpen == 1 && counter == old(counter) + 1
        && msgPtr == 0 && moduleRefs == old(moduleRefs) + 1
        && text == Message(counter)
        && StoresCString(msg[..], text)
        && msg[|text| + 1..] == old(msg[..])[|text| + 1..]
    {
      if deviceOpen != 0 {
        return -EBUSY;
      }
      deviceOpen := deviceOpen + 1;
      counter := counter + 1;
      var m := Message(counter);
      MessageFits(counter);
      MessageHasNoNul(counter);
      forall i | 0 <= i <= |m| {
        msg[i] := if i < |m| then m[i] else NUL;
      }
      text := m;
      msgPtr := 0;
      moduleRefs := moduleRefs + 1;
      r := 0;
      assert msg[..|m|] == m;
    }

    /** `device_release`. */
    method Release() returns (r: int)
      requires Valid()
      requires deviceOpen > 0
      modifies this`deviceOpen, this`moduleRefs
      ensures Valid()
      ensures r == 0 && deviceOpen == old(deviceOpen) - 1 == 0
      ensures moduleRefs == old(moduleRefs) - 1
    {
      deviceOpen := deviceOpen - 1;
      moduleRefs := moduleRefs - 1;
      r := 0;
    }

    /**
     * `device_read`: copies the message from the cursor into `buffer`,
     * at most `length` characters and never the terminator.
     */
    method Read(buffer: array<char>, length: nat) returns (bytesRead: int)
      requires Valid()
      requires counter > 0
      requires length <= buffer.Length
      requires buffer != msg
      modifies this`msgPtr, buffer
      ensures Valid()
      ensures bytesRead == Min(length, |text| - old(msgPtr))
      ensures msgPtr == old(msgPtr) + bytesRead <= |text|
      ensures buffer[..bytesRead] == text[old(msgPtr)..msgPtr]
      ensures buffer[bytesRead..] == old(buffer[bytesRead..])
      ensures old(msgPtr) == |text| ==> bytesRead == 0 && msgPtr == old(msgPtr)
    {
      if msg[msgPtr] == NUL {
        return 0;
      }
      ghost var start := msgPtr;
      bytesRead := 0;
      var len := length;
      while len != 0 && msg[msgPtr] != NUL
        invariant msgPtr == start + bytesRead <= |text|
        invariant 0 <= len && len + bytesRead == length
        invariant forall j :: 0 <= j < bytesRead ==> buffer[j] == text[start + j]
        invariant forall j :: bytesRead <= j < buffer.Length ==> buffer[j] == old(buffer[j])
        decreases len
      {
        buffer[bytesRead] := msg[msgPtr];
        msgPtr := msgPtr + 1;
        len := len - 1;
        bytesRead := bytesRead + 1;
      }
      assert buffer[..bytesRead] == text[start..msgPtr];
    }

    /** `device_write`: writing is not supported, whatever the state or data. */
    method Write(data: seq<char>) returns (r: int)
      ensures r == -EINVAL
    {
      r := -EINVAL;
    }
  }

  function Min(a: int, b: int): int {
    if a <= b then a else b
  }
}
