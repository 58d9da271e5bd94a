# MEGA65 and C64 platform helpers, in Dafny

This project models the platform modules of the `mos-hardware` Rust crate for
the Commodore 64 and the MEGA65, and proves properties of that model.

- `memory.dfy` (module `Memory`): the machine's byte-addressed memory as
  `map<int, bv8>`. `peek!` is a map lookup and `poke!` is a map update.
- `mega65.dfy` (module `Mega65`): the MEGA65 profile. It holds:
  - the fixed addresses (screen, fonts, video chip, the four sound devices,
    colour memory);
  - the `VicBank` selector values;
  - the three CPU speed helpers `speed_mode1`, `speed_mode3` and
    `speed_mode40`. Each is a pure function from memory to memory doing the
    same read-modify-write steps, in the same order, as the source.
- `entropy.dfy` (module `Mega65Entropy`): `rand8`. It lives in
  `src/mega65/mod.rs` beside the speed helpers. It has a module of its own
  here because its model (injected reads, the fold and its lemmas) shares
  nothing with the memory-map functions.
  - It reads the noise register 0xd6de 32 times. It folds bit 0 of each
    sample into a byte with `r := (r << 1) | ((r >> 7) ^ (sample & 1))`.
    In Rust, `^` binds tighter than `|`, so this is "rotate left by one, then
    XOR the sample bit into bit 0".
  - After each sample it busy-waits until the raster register 0xd052 shows a
    value other than the one read just before.
  - Both registers change on their own, so the values they return are
    parameters: `noise[k]` is the k-th read of the noise register and
    `raster[j]` the j-th read of the raster register.
  - The method returns the byte and what each iteration read: one round per
    iteration, holding its noise sample and the raster values of its wait.
    A bus view turns the rounds into the transactions on the bus.
- `c64.dfy` (module `C64`): the C64 profile. It holds the fixed addresses,
  the two I/O controllers (CIA 1 and CIA 2), the eight `CIA1ControlFlags`
  masks and the `VicBank` selector values.
- `profiles.dfy` (module `Profiles`): the two profiles compared entry by
  entry.

Speed-helper contracts say which bits change and that nothing else changes:
- bit 6 (0x40) of 0xd031 (FAST) and of 0xd054 (VFAST) ends up as each speed
  prescribes;
- the other seven bits of those two registers are unchanged;
- every other address is unchanged.

Contracts of `rand8` say:
- it takes exactly 32 noise samples;
- it returns the fold of their bit 0 described above;
- it writes nothing. This is structural: `Rand8` takes no memory and
  returns none, so no write can be expressed. The bus view says which reads
  an iteration makes and in which order;
- each of its waits ends at the first raster value that differs from the
  reference value.

## Model

| member | source | states |
|---|---|---|
| Mega65.SidBase | src/mega65/mod.rs:28-31 | The four sound devices sit at 0xd400 + 0x20·i, for i = 0 to 3. |
| Mega65.BankOfRaw | src/mega65/mod.rs:35-40 | Inverse of the bank selector table. A value found is the stored value of the bank returned. A value not found is stored by no bank. |
| Mega65.VicBankRawRoundTrip | src/mega65/mod.rs:35-40 | Looking up a bank's stored value gives back that bank. No other bank stores the same value. |
| Mega65.SpeedMode1 | src/mega65/mod.rs:62-67 | Clears bit 0x40 of 0xd031 and of 0xd054. Keeps the other seven bits of both registers. Changes no other address. |
| Mega65.SpeedMode3 | src/mega65/mod.rs:70-75 | Sets bit 0x40 of 0xd031 and clears it in 0xd054. Keeps all other bits. Changes no other address. |
| Mega65.SpeedMode40 | src/mega65/mod.rs:78-83 | Sets bit 0x40 of 0xd031 and of 0xd054. Keeps all other bits. Changes no other address. |
| Mega65.Decode | src/mega65/mod.rs:61-83 | Reading a (FAST, VFAST) pair back gives the speed whose helper leaves that pair. VFAST without FAST, the one pair no helper leaves, gives no speed. |
| Mega65.SetSpeed | src/mega65/mod.rs:61-83 | The helper for a speed leaves exactly that speed's (FAST, VFAST) pair, from any starting state. It keeps other bits and addresses. |
| Mega65.SetSpeedRoundTrip | src/mega65/mod.rs:63-81 | After any helper, the speed read back from the two bits is the speed selected. |
| Mega65.SpeedsDistinguishable | src/mega65/mod.rs:63-81 | Two helpers that leave the same bit pair, from any two states, select the same speed. |
| Mega65.SameSpeedStateEqual | src/mega65/mod.rs:62-83 | Two results of the helpers from one state are equal if they agree on the two speed bits. |
| Mega65.SetSpeedOverrides | src/mega65/mod.rs:62-83 | A later speed helper overrides an earlier one completely. |
| Mega65.SpeedModesIdempotent | src/mega65/mod.rs:62-83 | Applying any of the three helpers twice is the same as applying it once. |
| Mega65Entropy.Step | src/mega65/mod.rs:50 | One loop step rotates the byte left by one position and XORs bit 0 of the sample into bit 0. |
| Mega65Entropy.AccumulateSnoc | src/mega65/mod.rs:48-50 | One more sample is one more step applied to the byte accumulated so far. |
| Mega65Entropy.AccumulateAppend | src/mega65/mod.rs:48-50 | Folding two runs of samples is folding the first, then folding the second from the result. |
| Mega65Entropy.AccumulateClosedForm | src/mega65/mod.rs:46-50 | The fold equals the start byte rotated once per sample, XOR each sample's bit 0 rotated once per later sample. |
| Mega65Entropy.Rand8ClosedForm | src/mega65/mod.rs:46-50 | From the start value 0, the result is only the XOR of the rotated sample bits. |
| Mega65Entropy.OnlyBitZeroMatters | src/mega65/mod.rs:50 | Sample sequences that agree on bit 0 of every sample give the same result. |
| Mega65Entropy.SilentNoiseGivesZero | src/mega65/mod.rs:44-50 | If no sample has bit 0 set, the result is 0. This is the documented always-zero caveat. |
| Mega65Entropy.OneSampleOneBit | src/mega65/mod.rs:47-50 | Flipping bit 0 of sample k flips exactly one result bit: bit 1 rotated by the number of later samples. |
| Mega65Entropy.Rand8SampleBit | src/mega65/mod.rs:46-50 | With 32 samples, sample k decides result bit (31 − k) mod 8 and no other bit. |
| Mega65Entropy.Rand8EveryThird | src/mega65/mod.rs:46-50 | A fixed fixture: noise with bit 0 set on every third read, from the first, yields 0x6d. |
| Mega65Entropy.FirstChange | src/mega65/mod.rs:54-56 | The first raster read at or after a position that differs from a value. Every read before it equals that value. |
| Mega65Entropy.WaitForRasterChange | src/mega65/mod.rs:53-56 | Reads a reference raster value, then reads until a different value appears. It stops at the first such read, and every read in between equals the reference. |
| Mega65Entropy.Rand8 | src/mega65/mod.rs:45-59 | Returns exactly 32 rounds. Their samples are the first 32 noise reads, in order, and each holds one complete raster wait. The waits, joined in order, are a prefix of the raster reads. Returns the fold of the samples from 0. On the bus built from its rounds, the reads of 0xd6de are the samples and the reads of 0xd052 are the waits. |
| Mega65Entropy.RasterBusShape | src/mega65/mod.rs:53-56 | A wait puts one read of 0xd052 on the bus per raster value, in order. |
| Mega65Entropy.RoundBusReads | src/mega65/mod.rs:50-56 | One iteration's transactions are the read of its sample from 0xd6de first, then one read of 0xd052 per wait value, in order, and nothing else. |
| Mega65Entropy.Rand8BusReadsOnly | src/mega65/mod.rs:50-56 | Over any sequence of rounds, the reads of 0xd6de are the samples and the reads of 0xd052 are the waits, in order, and every transaction reads one of the two registers. This holds for every sequence of rounds, because the bus is built from rounds. |
| C64.CiaBase | src/c64.rs:17-18 | CIA 1 is at 0xdc00 and CIA 2 at 0xdd00. They are one page (0x100) apart and both page-aligned. |
| C64.FlagAt | src/c64.rs:22-29 | The flag declared at position i has mask 1 << i: `START` is bit 0, and so on up to `FIFTY_HZ_RTC` at bit 7. |
| C64.MaskIsPositionBit | src/c64.rs:22-29 | Each control flag mask has exactly one bit set, the bit at its declared position. |
| C64.MasksDisjoint | src/c64.rs:20-31 | Two different control flags never share a bit. |
| C64.FlagsOf | src/c64.rs:20-31 | A flag is among the flags of a byte if and only if its bit is set in the byte. |
| C64.UnionBit | src/c64.rs:20-31 | A flag's bit is set in the union of a list of flags if and only if the flag is in the list. |
| C64.FlagsOfRoundTrip | src/c64.rs:20-31 | Uniting the flags of a byte gives the byte back. |
| C64.UnionRoundTrip | src/c64.rs:20-31 | The flags of the union of a list are exactly the flags in the list. |
| C64.FlagsCoverByte | src/c64.rs:20-31 | The union of all eight masks is 0xff. |
| C64.BankOfNumber | src/c64.rs:33-38 | For each bank number 0 to 3 there is a variant documented with that number. |
| C64.VicBankRawInjective | src/c64.rs:33-38 | Different banks store different selector values (0x11, 0x10, 0x01, 0x00). |
| Profiles.LayoutsDifferOnlyInScreen | src/c64.rs:6-15 | The C64 screen is at 0x0400 and the MEGA65 screen at 0x0800. Otherwise the two layouts are identical: fonts 0x1000/0x1800, video chip 0xd000, first sound device 0xd400, colour memory 0xd800. The MEGA65 side is src/mega65/mod.rs:21-33. |
| Profiles.LayoutsDistinct | src/c64.rs:6-15 | Within each profile, the six fixed addresses are pairwise distinct. |
| Profiles.FromMega65 | src/mega65/mod.rs:35-40 | Each MEGA65 bank has a C64 bank with the same number and the same selector value. |
| Profiles.VicBankTablesIdentical | src/c64.rs:33-38 | A C64 bank and a MEGA65 bank have the same bank number if and only if they store the same selector value, so the two tables are identical. The MEGA65 side is src/mega65/mod.rs:35-40. |
| Profiles.SidOfC64IsFirstSid | src/mega65/mod.rs:28-31 | The C64's one sound device is at the address of the MEGA65's first. The other three MEGA65 devices sit above it. |

## Left out

- `src/irq.c` is not part of this model. It installs an interrupt handler with
  inline assembly and interrupt vectors. That is CPU and concurrency
  behaviour, not a value transform.
- The register-block layouts of the video chip, the sound devices, the I/O
  controllers and the MEGA65 I/O map are not modelled. Their field offsets
  and block sizes are defined in modules outside the two platform files.
  Only base addresses are modelled; in particular nothing is claimed about
  the four sound-device blocks overlapping or not.
- The methods the `bitflags` macro generates (insert, remove, contains, …)
  are not modelled. The macro is a foreign library; only the mask constants
  are modelled. `Union` and `FlagsOf` stand for uniting masks and for testing
  each mask.
- The `peek!`/`poke!` macros are modelled only as map lookup and map update.
  Volatile access and pointer casts are not modelled.
- Real timing of the raster busy-wait is not modelled. The source puts no
  bound on the wait. The model makes the raster reads a parameter, and
  `Rand8` requires that its 32 waits each end within them.
- The 1 MHz, 3.5 MHz and 40 MHz clock rates are not modelled. They are names
  of the three speeds only.
- Addresses are unbounded integers, not 16-bit pointers. Every constant is
  below 0x10000, so nothing wraps.
- Mega65.SpeedMode1: requires both speed registers to be backed by the memory
  map. In the source, reading an address no hardware backs is not an error,
  so its value there is left unmodelled. The same holds for Mega65.SpeedMode3,
  Mega65.SpeedMode40 and Mega65.SetSpeed.
- The `VicBank` selector values 0x11, 0x10, 0x01 and 0x00 are modelled as
  written. They read like the binary bank bits %11, %10, %01 and %00 written
  in hex notation. No code in these two files writes them to a register, so
  no claim is made about what they select.
