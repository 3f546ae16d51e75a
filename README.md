# ferrOS kernel core, modelled in Dafny

This project models the small core of the ferrOS bare-metal kernel:

- the VGA text-mode cell encoding: the 16-colour palette, how a colouring and a blink flag are packed into an attribute byte, the character cell `VgatChar`, and the default 25 × 80 geometry (`src/drivers/io/vgat_out.rs`);
- the boot loop of `_start`, which writes `"Hello World!"` into the framebuffer, character bytes at even offsets and the attribute `0xb` at odd ones (`src/main.rs`);
- the process details record and the default process manager: a table of 255 optional slots and a PID counter (`src/proc/mod.rs`, `src/proc/procd.rs`);
- the `Chained` iterator (`src/util/iter.rs`).

Files: `options.dfy` (the `Option` type), `vgat_out.dfy` (module `VgatOut`), `boot.dfy` (module `Boot`), `proc.dfy` (module `Proc`), `procd.dfy` (module `Procd`), `iter.dfy` (module `Iter`).

Characters and attribute bytes are naturals below 256 (`VgatOut.Byte`). The packing functions compute with 8-bit shifts and ORs as the source does. Their contracts state the result arithmetically. The framebuffer is a Dafny `array<Byte>` of 4000 bytes: 2000 cells of two bytes each. The process manager is a class whose table is an `array`. `spawn_proc` is a method that changes only `head`. An inner iterator of `Chained` is a class, `SeqIter`, holding a fixed sequence and a cursor. `Chained.Next` is proved against the pure step function `ChainNext`. The functions `Run` and `Pending` describe any number of calls, and the lemmas `ChainNextPending`, `RunYieldsPending` and `RunKeepsFlag` state what those calls yield.

Two facts about the code that the model keeps as they are:

- The background colour is not masked to three bits. `c << 4` (src/drivers/io/vgat_out.rs:44) moves bit 3 of colours 8-15 into bit 7, the blink bit. The model keeps that collision and proves it: `BrightBackgroundSetsBlink`, `StyleByteCollides`.
- The code has no escape-sequence handling, no cursor and no write method. `VgatOut` holds only its buffer (src/drivers/io/vgat_out.rs:81-84). The global output registry does exist (src/drivers/io/mod.rs:7-10, 23-27) and is left out, as said under "## Left out".

## Model

| member | source | states |
|---|---|---|
| VgatOut.Color.Value | src/drivers/io/vgat_out.rs:11-28 | every colour discriminant lies in 0..15, so it fits in four bits |
| VgatOut.ColorOf | src/drivers/io/vgat_out.rs:11-28 | every value below 16 names the unique palette colour with that discriminant |
| VgatOut.ColorOfValue | src/drivers/io/vgat_out.rs:11-28 | the discriminants are pairwise distinct, so reading a 4-bit field back gives the colour that was written |
| VgatOut.ColoringByte | src/drivers/io/vgat_out.rs:39-48 | a foreground byte is the colour value, below 16 (bits 0-3 only); a background byte is 16 × the colour, and it stays below 0x80 (bits 4-6) iff the colour is below 8 |
| VgatOut.StyleByte | src/drivers/io/vgat_out.rs:56-60 | `blinking << 7 \| coloring`: bits 0-6 are the colouring's; bit 7 is set iff blinking or the colouring already sets bit 7, so for a colouring below 0x80 bit 7 is set iff blinking |
| VgatOut.FieldsOf | src/drivers/io/vgat_out.rs:41-42 | a byte laid out as blink bit, three background bits and four foreground bits decodes to those three fields |
| VgatOut.DecodeStyleByte | src/drivers/io/vgat_out.rs:41-45 | for a foreground style, or a background colour below 8, decoding the packed byte gives back the blink flag, the colour, and black in the other field |
| VgatOut.BrightBackgroundSetsBlink | src/drivers/io/vgat_out.rs:42-44 | a background colour of 8 or more makes the byte read as blinking whatever the flag, with the colour minus 8 in the background bits |
| VgatOut.StyleByteCollides | src/drivers/io/vgat_out.rs:44 | non-blinking dark-grey background and blinking black background pack to the same byte |
| VgatOut.NewVgatChar | src/drivers/io/vgat_out.rs:72-77 | the cell keeps the character unchanged and stores the packed byte of the style; that byte decodes to the requested colour and blinks iff asked to or the background colour is 8 or more |
| VgatOut.MulU8 | src/drivers/io/vgat_out.rs:92 | the `u8` product of the dimensions: defined iff it fits below 256, and equal to the product then |
| VgatOut.DefaultLengthOverflowsU8 | src/drivers/io/vgat_out.rs:8 | 25 × 80 does not fit in a `u8` |
| VgatOut.DefaultCellCount | src/drivers/io/vgat_out.rs:8 | the default buffer holds 25 × 80 = 2000 cells |
| Boot.Painted | src/main.rs:12-17 | after the message is written, byte `2i` is message byte `i`, byte `2i+1` is the attribute, and every byte from `2·len` on is unchanged |
| Boot.Start | src/main.rs:12-17 | the loop leaves the framebuffer equal to `Painted` of its old contents: message bytes at even offsets, `0xb` at odd ones, the rest unchanged |
| Boot.MsgLength | src/main.rs:6 | the message has 12 bytes, so 24 bytes are written, inside the 4000-byte buffer |
| Boot.NoOverwrite | src/main.rs:12-17 | after the first `j` characters are written, the bytes of every earlier character `i < j` still hold `msg[i]` and the attribute: no iteration overwrites another |
| Boot.MsgAttributeDecodes | src/main.rs:15 | `0xb` is the packed non-blinking light-cyan foreground style, and decodes to light cyan on black without blink |
| Boot.PaintedCells | src/main.rs:12-17 | every written byte pair is the value and style of the `VgatChar` for that message character in the light-cyan style |
| Proc.GettersReturnFields | src/proc/mod.rs:48-70 | each of `pid`, `tty`, `status`, `env`, `cmd`, `cwd` returns the field the record was built with |
| Proc.GettersDetermineDetails | src/proc/mod.rs:47-71 | two records are equal iff all six getters agree |
| Proc.ProcStatusVariants | src/proc/mod.rs:75-80 | `ProcStatus` has exactly the four variants |
| Procd.RunningPids | src/proc/procd.rs:41-47 | the listed PIDs are exactly those of occupied slots, and the list is empty iff every slot is |
| Procd.RunningPidsAppend | src/proc/procd.rs:42-46 | the PIDs of a table split in two are those of the first part followed by those of the second (slot order) |
| Procd.RunningPidsOne | src/proc/procd.rs:44-46 | one slot contributes its PID when occupied and nothing when empty |
| Procd.Spawned | src/proc/procd.rs:32-37 | `n` successive spawns from counter `h` return `h, h+1, …, h+n-1` |
| Procd.SpawnedFromDefault | src/proc/procd.rs:23-24 | from a fresh manager the spawns return 0, 1, …, n-1, strictly increasing and so pairwise distinct |
| Procd.Manager.Default | src/proc/procd.rs:20-27 | `MAX_PROCS` = 255 empty slots, counter 0, and nothing running |
| Procd.Manager.SpawnProc | src/proc/procd.rs:32-37 | returns the old counter, increases it by exactly one, and leaves the table and the running list unchanged |
| Procd.SpawnSuccessively | src/proc/procd.rs:32-37 | `n` successive `spawn_proc` calls return exactly `Spawned(head, n)` and leave the counter `n` further on, the table unchanged |
| Procd.Manager.ProcsRunning | src/proc/procd.rs:41-47 | the PIDs of the table's occupied slots in slot order; every occupied slot's PID is included |
| Procd.Manager.ProcDetailsOf | src/proc/procd.rs:49-51 | finds no process for any PID |
| Procd.Manager.IsRunning | src/proc/mod.rs:26-28 | true iff `proc_details` finds the process; so false for every PID on this manager |
| Iter.CursorNext | src/util/iter.rs:26 | an inner `next` yields the first remaining item and consumes it, or `None` without change when exhausted |
| Iter.ChainNext | src/util/iter.rs:24-32 | never changes `curr_a`; while it is true only `a` advances and `b` is untouched; otherwise `b` advances if present, and with no `b` the result is `None` and nothing changes |
| Iter.ChainNextPending | src/util/iter.rs:24-32 | each call yields the first pending item of the selected iterator and consumes it, or `None` when nothing is pending |
| Iter.RunYieldsPending | src/util/iter.rs:24-32 | `n` calls yield the pending items in order, then `None` for every further call |
| Iter.RunKeepsFlag | src/util/iter.rs:24-32 | no sequence of calls changes `curr_a`, and while it is true `b` is never advanced |
| Iter.NewChainYieldsOnlyFirst | src/util/iter.rs:15-17 | a chain built by `new` yields exactly `a`'s remaining items, then `None` forever, never an item of `b` |
| Iter.SeqIter.Next | src/util/iter.rs:26 | the inner iterator's `next` behaves as `CursorNext` on its state |
| Iter.Chained.constructor | src/util/iter.rs:15-17 | stores `a` and `b` and sets `curr_a`, so what remains to be yielded is `a`'s items |
| Iter.Chained.Next | src/util/iter.rs:24-32 | the result and the new state of every inner iterator are those of `ChainNext` on the old state |

## Findings

| source | as written | input that shows it | evidently intended | confidence | as-written member | corrected member |
|---|---|---|---|---|---|---|
| src/drivers/io/vgat_out.rs:92 | the buffer length is `DIMS.0 * DIMS.1`, a product of two `u8` values | the default dimensions (25, 80): 2000 does not fit below 256 | 2000 cells, computed as `usize` | high; not executed | VgatOut.DefaultLengthOverflowsU8 | VgatOut.DefaultCellCount |

## Left out

- The raw-pointer mapping of the framebuffer (`from_raw_parts_mut`, `offset`), the address `0xb8000` and the `VgatOut` struct built on it: the framebuffer is an `array<Byte>` given to `Boot.Start`.
- The non-returning `loop {}` after the boot loop and the panic handler: they do nothing observable.
- The `STDOUT` registry, `_print` and the `print!`/`println!` macros in `src/drivers/io/mod.rs`: a lock, lazy initialisation and a forwarding call into foreign formatting code.
- `src/runtime/mod.rs` and `src/runtime/mod_defaults.rs`: an incomplete declaration and a lazily built singleton. `src/osattrs/mod.rs` and `src/lib.rs`: bare constants and module declarations.
- Rust `char`: characters and style bytes are naturals below 256, because the source's shifts on `char` do not type-check as written.
- `self.blinking << 7` shifts a `bool` (src/drivers/io/vgat_out.rs:58), which does not compile; the model reads it as the blink flag taken as 0 or 1.
- `b.next()` through `Some(ref b)` (src/util/iter.rs:27-28) is a shared borrow and does not compile; the model advances `b` as a mutable borrow would.
- Procd.Manager.SpawnProc: PIDs are unbounded naturals, so the `usize` overflow of `head += 1` is not modelled.
- Lifetimes, the `ProcManager` trait and its `impl Iterator` result: `procs_running` returns a sequence, and the trait's default `is_running` is a function of the manager.
- Iter.Chained.constructor: the two inner iterators must be distinct objects, as Rust ownership guarantees; the model does not otherwise track ownership.
- Generic inner iterators: `a` and `b` are cursors over fixed sequences, so the model covers finite iterators that keep returning `None` once exhausted.

