# chardev_test: a verified model of a single-session character device

`main.c` is a Linux kernel module that registers a character device,
`chardev_test`. Its file operations serve a greeting, one session at a time:

- `device_open` refuses with `-EBUSY` while a session is open. Otherwise it
  sets the `Device_Open` latch and increments a static `counter`. It then
  formats `"I already told you %d times.\n"` into the 80-byte buffer `msg`
  and rewinds the cursor `msg_Ptr`.
- `device_read` copies characters from the cursor into the caller's buffer.
  It stops at the terminating NUL or when the caller's length is used up. It
  advances the cursor and returns the count, which is 0 at the end of the
  message.
- `device_write` always fails with `-EINVAL`.
- `device_release` clears the latch.

The model has three modules:

- `Decimal` (`decimal.dfy`) models what `sprintf`'s `%d` prints for a
  non-negative `int`. `DecimalString` produces the numeral and
  `ParseDecimal` reads it back. They are proved inverse on canonical
  numerals.
- `CharDevice` (`chardev.dfy`) holds the message template and the class
  `Device`. The class has one field per piece of global state of the
  source: `deviceOpen` (`Device_Open`), `counter`, `msg` (an `array<char>`
  of `BUF_LEN` = 80), `msgPtr` (the index `msg_Ptr` points at), and
  `moduleRefs`, the references taken by `try_module_get`. A ghost field
  `text` names the C string that `msg` holds. `Valid()` is the device
  invariant:
  - the latch is 0 or 1;
  - the module is pinned exactly while a session is open;
  - `counter` stays within `int`;
  - `msg` holds `text`, which contains no NUL, followed by a NUL;
  - the cursor never passes that NUL.

  `Greeting()` adds that, after the first open, `text` is
  `Message(counter)`. It reads only `counter` and `text`, so only `Open`
  has to re-establish it. `Read` and `Release` keep it by their frames.

  `Open`, `Read`, `Release` and `Write` are methods. Each `ensures` clause
  gives the result and the whole new state.
- `Session` (`session.dfy`) holds `Replay`, a specification of what a run
  of successive reads hands back. Lemmas about `Replay` are proved, and
  `ReadSession`, a reader that calls `Device.Read` repeatedly, is proved to
  return exactly `Replay`.

The first message, `"I already told you 1 times.\n"`, is 19 + 1 + 8 = 28
characters, and `device_read` never copies the NUL that follows it. Reads of
10, 100 and 5 bytes therefore return 10, 18 and 0, which
`ExampleFirstSession` proves. `Read` needs only a prior open: after a
release `msg_Ptr` still points into `msg` (main.c:133, main.c:147), so
reading then is defined and the model allows it.

## Model

| member | source | states |
|---|---|---|
| `Decimal.DecimalString` | main.c:132 | The numeral `%d` prints is canonical: it is non-empty, all digits, and has no leading zero unless the value is 0. |
| `Decimal.ParseDecimalString` | main.c:132 | Reading back the numeral printed for `n` gives `n`. |
| `Decimal.DecimalStringOfParse` | main.c:132 | The other direction: every canonical numeral is exactly what `%d` prints for its value. |
| `Decimal.DecimalStringInjective` | main.c:132 | Two counters print the same numeral if and only if they are equal. |
| `Decimal.DecimalStringLength` | main.c:132 | `n` prints with at most `k` digits if and only if `n < 10^k`. |
| `CharDevice.Message` | main.c:132 | The greeting of the `n`-th open, `"I already told you " + DecimalString(n) + " times.\n"`: 27 template characters around the counter's numeral. |
| `CharDevice.MessageHasNoNul` | main.c:132 | The formatted message contains no NUL, so the C string in `msg` is the whole message and is not cut short. |
| `CharDevice.MessageDigits` | main.c:132 | The message is the 19-character prefix, the counter's numeral and the 8-character suffix, so its length is 27 plus the number of digits. |
| `CharDevice.MessageInjective` | main.c:126-132 | Different counters give different messages, in both directions. |
| `CharDevice.MessageFits` | main.c:132 | For every counter up to `INT_MAX`, the message plus its NUL takes at most 38 bytes, which fits the `BUF_LEN` = 80 buffer of main.c:16 and main.c:23. |
| `CharDevice.Device.constructor` | main.c:22-24 | At module load the latch, the counter and the module references are 0, and `msg` is all NUL. `Valid()` and `Greeting()` hold. |
| `CharDevice.Device.Open` | main.c:124-140 | With a session open, it returns `-EBUSY` and leaves the latch, counter, message, cursor and module references unchanged. Otherwise it returns 0, sets the latch to 1, adds exactly 1 to the counter, stores `Message(counter)` and a NUL at the front of `msg` without touching the bytes after them, puts the cursor at 0 and takes one module reference. It keeps `Valid()` and `Greeting()`, so the latch never exceeds 1. |
| `CharDevice.Device.Release` | main.c:145-158 | It returns 0, brings the latch back to 0 and drops the module reference. By its frame, the counter, message and cursor are unchanged. |
| `CharDevice.Device.Read` | main.c:164-198 | It returns `n = min(length, characters left before the NUL)` and stores exactly those characters of the message at the front of `buffer`. The rest of `buffer` is untouched. The cursor advances by exactly `n` and never passes the NUL. At the NUL it returns 0 and changes nothing. By its frame, the latch, counter and message are unchanged. |
| `CharDevice.Device.Write` | main.c:203-207 | It returns `-EINVAL` for every input in every state and changes nothing, since it has no `modifies` clause. |
| `Session.ReplayLength` | main.c:183-197 | Successive reads hand back, in total, as many characters as were asked for or as were left before the NUL, whichever is fewer. |
| `Session.ReplayInOrder` | main.c:183-197 | Successive reads hand back a contiguous run of the message starting at the cursor, in order. |
| `Session.ReplayIsMessage` | main.c:177-197 | Successive reads of any lengths concatenate to the message from the cursor on, with nothing skipped or repeated, cut off only where the requested lengths run out. Asking for at least what is left yields the whole rest of the message. |
| `Session.ReplayAtEnd` | main.c:177-178 | Once the cursor is on the NUL, every further run of reads yields nothing. |
| `Session.ReadSession` | main.c:164-198 | A reader calling `Device.Read` once per requested length, with a buffer of that size, collects exactly `Replay` of the message from the starting cursor. The cursor ends just after what was collected. |

## Left out

- `init_function` and `cleanup_function` (main.c:43-121) are not modelled. They only register and unregister the device through kernel calls.
- `printk` logging is I/O and is not modelled.
- `try_module_get` is modelled as `moduleRefs` going up by one and `module_put` as it going down by one. The kernel's own module count is not modelled. The chance that `try_module_get` fails is not modelled either; its result is ignored by the source anyway.
- `put_user` is modelled as a store into the caller's `array<char>`. User-space addressing and the `-EFAULT` it can report are not modelled; the source ignores that result. `Read` therefore requires the array to hold `length` characters and to be distinct from `msg`.
- Concurrency is not modelled. The unlocked check-then-increment of `Device_Open` races under concurrent opens; the model is sequential.
- The `loff_t *offset` argument of `device_read` and `device_write` is not used by the source and is not modelled. The `size_t` and `ssize_t` widths are not modelled because counts here never exceed 37.
- Behaviour the source leaves undefined becomes preconditions rather than error paths:
  - `Read` requires a prior open (`counter > 0`), because `msg_Ptr` is NULL before the first open.
  - `Release` requires an open session, because otherwise the latch would go negative.
  - `Open` requires `counter < INT_MAX` when it will increment, because `++counter` would overflow a signed `int`.
