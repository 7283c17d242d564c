# Timonel I2C master console (ESP32) in Dafny

This project models the interactive console `src/timonel-mss-esp32.cpp`. The console runs on
an ESP32. It talks over I2C to an ATtiny85 that runs either the Timonel bootloader or a user
application. The model covers the console's logic, not its text output:

- **Status decoding** (`StatusDecoder`). `PrintStatus` decides whether a status record
  identifies the bootloader or the user application. It then picks the version nickname,
  the "Not Set" application start, the trampoline address and the clock-tweak label. The
  trampoline follows the source's C arithmetic step by step: `~` on an `int`, a cast to
  `uint16_t`, a subtraction in `int` that may go negative, then a 12-bit mask. Lemmas show
  that it equals `((bootloader_start >> 1) + m) mod 4096 * 2`, where `m` is the byte-swapped
  application start cut to 12 bits. They also show it is the target of an AVR relative jump
  placed just below the bootloader.
- **Word reader** (`WordReader`). `ReadWord` keeps a 16-slot buffer, a static index that
  is clamped at slot 15, the `new_word` flag and a carriage-return terminator. It is a class
  over an array. Its loop is proved against a pure step function. Lemmas state what a
  typed word reads as: its first 15 characters, read by `atoi` and cast to 16 bits.
- **Device discovery** (`Discovery`). `DiscoverDevice` polls a sequence of scan results
  until one reports a non-zero address. A four-phase spinner (`RotatingBar`) turns only
  when `ROTATION_DLY` has elapsed on the wrapping 32-bit millisecond clock.
- **Dispatch** (`Dispatch`). This module holds the key tables of the two running modes,
  including the compile-time feature gates. It also holds the feature-gated menu, the
  running-mode header and the checks on an entered flash page address.
- **Session** (`Session`). The program's globals become a `Console` class. Its methods are
  the key handlers and one pass of `loop()`. Every call the console makes on the device is
  appended to a `calls` log, except the `GetDevSettings` call of `PrintStatus`, which is
  not part of this model. Whatever the device or the bus answers (status records,
  scans, EEPROM contents) is a parameter. The functions `Effect` and `Pass` state the whole
  state that each key's command, and one pass of `loop()`, leave behind.

Header constants (`T_SIGNATURE`, the feature bit numbers, `SPM_PAGESIZE`, `MCU_TOTAL_MEM`,
`EEPROM_TOP`, `ROTATION_DLY`, `FEATURES_CODE`, `EXT_FEATURES`) are fields of `Common.Config`.

The model keeps these details of the code as written:

- The page address check rejects an address `> bootloader_start - SPM_PAGESIZE`, not `>=`
  (line 232). So the last page, the one that ends exactly at the bootloader, is accepted.
- A rejected page address is set to `0x0000` and `new_word` stays raised (lines 232-235).
  The next 'b' then reads no input and, when a page fits below the bootloader, accepts
  that `0x0000`. A successful EEPROM write also leaves `new_word` raised (lines 291-300),
  so the next 'b' reads no input and re-checks the page address already set.
- An unknown bootloader start (`bootloader_start > MCU_TOTAL_MEM`) ends 'b' with the
  entered address kept and `new_word` raised (lines 228-231).
- The version command does a single `ScanBus`, not a full discovery. The mode flag
  becomes whatever that one scan reports (lines 161-162).
- The menu offers 'o/p' when EEPROM access is compiled in. The dispatcher handles 'o'
  and 'p' only when flash reading is compiled in as well, because its `#if` blocks are
  nested (lines 260-316, 482-486). `Dispatch.MenuCanOfferUnknownEeprom` exhibits a build
  where the menu offers a key that the dispatcher reports as unknown.

## Model

| member | source | states |
|---|---|---|
| `StatusDecoder.SwappedLow12` | src/timonel-mss-esp32.cpp:392-394 | the byte-swapped application start masked to 12 bits lies in 0..4095 |
| `StatusDecoder.Trampoline` | src/timonel-mss-esp32.cpp:391-395 | the trampoline, computed with C's promotions, is always even and at most 0x1FFE |
| `StatusDecoder.TrampolineFormula` | src/timonel-mss-esp32.cpp:391-395 | the trampoline equals ((bootloader_start >> 1) + swapped low 12 bits) mod 4096, times 2; it depends on the application start only through those 12 bits |
| `StatusDecoder.TrampolineIsJumpTarget` | src/timonel-mss-esp32.cpp:391-395 | the trampoline is the byte address an AVR relative jump reaches from the word just below the bootloader, when the swapped 12 bits are its offset field (4096-word flash) |
| `StatusDecoder.PrintStatus` | src/timonel-mss-esp32.cpp:386-447 | a bootloader report exactly when signature == T_SIGNATURE and major or minor is non-zero, otherwise only the user-application report; nickname Pre-release for major 0, Sandra for 1, Unknown otherwise; "Not Set" exactly when application_start == 0xFFFF, otherwise the address with its trampoline; Auto exactly when the E_AUTO_CLK_TWEAK bit is set; the version, bootloader start, features, extended features, low fuse and oscillator calibration are reported as read |
| `WordReader.LeadingDigits` | src/timonel-mss-esp32.cpp:361 | the part `atoi` reads is the longest digit prefix: a prefix, all digits, followed by a non-digit or the end |
| `WordReader.AtoiStopsAtNonDigit` | src/timonel-mss-esp32.cpp:356-361 | `atoi` of a buffer is unaffected by anything after a non-digit, in particular after the terminator written at `ix` |
| `WordReader.Step` | src/timonel-mss-esp32.cpp:347-359 | after every character the index stays in 0..15 |
| `WordReader.Feed` | src/timonel-mss-esp32.cpp:346-360 | one call keeps the index in 0..15, consumes a prefix of the input, stops only at a word end or when input runs out, and consumes nothing once `new_word` is set |
| `WordReader.FeedWord` | src/timonel-mss-esp32.cpp:346-359 | from any index, typing a word and CR stores the first min(n, 15) typed characters, terminates the string right after them, resets `ix` to 0, raises `new_word` and leaves the rest unread; a 16th or later character lands in slot 15 and is overwritten |
| `WordReader.ReadWordYields` | src/timonel-mss-esp32.cpp:341-362 | from index 0, the value read is the first 15 characters of the word parsed as decimal and cast to `uint16_t`; reading stops right after the first CR |
| `WordReader.FeedWithoutTerminator` | src/timonel-mss-esp32.cpp:346-360 | without a CR every character is consumed and no word becomes ready |
| `WordReader.OneTwoThree` | src/timonel-mss-esp32.cpp:341-362 | "123" then CR reads as 123 |
| `WordReader.EmptyWordIsZero` | src/timonel-mss-esp32.cpp:355-361 | a bare CR reads as 0 |
| `WordReader.LongWordKeepsFifteen` | src/timonel-mss-esp32.cpp:349-356 | characters after the 15th of a word do not change its value |
| `WordReader.LineReader.ReadWord` | src/timonel-mss-esp32.cpp:341-362 | the array, index and flag change exactly as `Feed` on the available characters, and the result is `atoi` of the buffer cast to 16 bits |
| `Discovery.FirstAnswer` | src/timonel-mss-esp32.cpp:372-379 | the index of the first scan with a non-zero address; every earlier scan found none |
| `Discovery.NextPhase` | src/timonel-mss-esp32.cpp:526-552 | phases 1..4 move to a different phase in 1..4; any other state is left unchanged |
| `Discovery.FourTurnsReturn` | src/timonel-mss-esp32.cpp:526-552 | four spinner steps return every state to itself |
| `Discovery.RotateFromOne` | src/timonel-mss-esp32.cpp:526-552 | from phase 1, n steps give phase 1 + n mod 4 (1, 2, 3, 4, 1, ...) |
| `Discovery.SpinnerTurnsWhenDue` | src/timonel-mss-esp32.cpp:374-378 | the spinner turns once for each scan at which `now - start_time >= ROTATION_DLY` (with `start_time` then set to `now`) and at no other scan |
| `Discovery.DiscoverySpinnerPhase` | src/timonel-mss-esp32.cpp:367-378 | a discovery's spinner ends at phase 1 + (number of due scans mod 4) |
| `Discovery.RotatingBar` | src/timonel-mss-esp32.cpp:526-552 | the pointed-to state is updated in place to its next phase |
| `Discovery.DiscoverDevice` | src/timonel-mss-esp32.cpp:365-383 | returns the first non-zero scan address and that scan's mode flag, makes no scan after it, and ends with the spinner the due scans produce |
| `Dispatch.Classify` | src/timonel-mss-esp32.cpp:62-326 | the action comes from the table of the current running mode, and it keeps the per-mode guarantees of the two tables below |
| `Dispatch.ApplicationAction` | src/timonel-mss-esp32.cpp:66-130 | in application mode only a/A s/S z/Z ?/h/H do anything; every other key is ignored |
| `Dispatch.BootloaderAction` | src/timonel-mss-esp32.cpp:136-325 | in bootloader mode a key is "unknown" exactly when it is none of z v 13 r e b w (either case), m when flash reading is compiled in, or p o when flash reading and EEPROM access are both compiled in; a memory dump or an EEPROM command only happens when its feature is compiled in |
| `Dispatch.OnlyResetLeavesApplicationMode` | src/timonel-mss-esp32.cpp:98-117 | in application mode only 'z'/'Z' leads to a rediscovery |
| `Dispatch.ShowMenu` | src/timonel-mss-esp32.cpp:466-490 | the application prompt exactly in application mode, otherwise the bootloader prompt with the entries below |
| `Dispatch.BootMenuItems` | src/timonel-mss-esp32.cpp:471-487 | the bootloader prompt always starts with z v r e w, lists b, m and o/p exactly when that feature is compiled in and the device reports it, and prints no entry twice and every entry in the order z v r e w b m o/p, so at most eight |
| `Dispatch.ShowHeader` | src/timonel-mss-esp32.cpp:450-463 | the banner names the user application exactly in application mode, the mode in which `ShowMenu` prints the application prompt |
| `Dispatch.MenuKeysAreDispatched` | src/timonel-mss-esp32.cpp:466-490 | every key the bootloader prompt offers is dispatched, provided EEPROM access is compiled in only with flash reading |
| `Dispatch.MenuCanOfferUnknownEeprom` | src/timonel-mss-esp32.cpp:260-316 | without that proviso the prompt can offer 'o/p' while the dispatcher answers "unknown" |
| `Dispatch.CheckPageAddress` | src/timonel-mss-esp32.cpp:228-236 | an accepted address is not 0xFFFF and its page ends at or below the bootloader start, which is within the flash; "unknown bootloader" exactly when the start exceeds MCU_TOTAL_MEM |
| `Dispatch.OptionalItems` | src/timonel-mss-esp32.cpp:472-486 | the optional entries come in the order b, m, o/p, each exactly when its condition holds, at most three |
| `Dispatch.MenuKeysSelectTheirCommand` | src/timonel-mss-esp32.cpp:466-490 | each key a bootloader-menu entry names selects the command the entry announces ('z' restart, 'v' version, 'r' run, 'e' erase, 'w' write, 'b' set address, 'm' dump, 'o' read and 'p' write EEPROM), provided EEPROM access is compiled in only with flash reading |
| `Dispatch.KeySelectsAnnouncedCommand` | src/timonel-mss-esp32.cpp:136-325 | the bootloader switch maps each menu key to the announced command whenever that entry's case is compiled in |
| `Dispatch.LastPageAccepted` | src/timonel-mss-esp32.cpp:232 | the page that ends exactly at the bootloader start is accepted (the test is `>`) |
| `Dispatch.FittingPageAccepted` | src/timonel-mss-esp32.cpp:232-236 | every page below the bootloader start, other than the 0xFFFF sentinel, is accepted |
| `Session.ReadSweep` | src/timonel-mss-esp32.cpp:309-311 | the EEPROM reads of a sweep: one per address, addresses 0 to n-1 in increasing order |
| `Session.Console.Setup` | src/timonel-mss-esp32.cpp:19-50 | the globals start cleared; the handle is bound to the discovered address, the mode is the one discovered, and in bootloader mode the status is read three times |
| `Session.Console.ReadChar` | src/timonel-mss-esp32.cpp:333-338 | the state becomes `NextKey` of the old one: an available character becomes the key and raises `new_key`; otherwise nothing changes |
| `Session.Console.AwaitWord` | src/timonel-mss-esp32.cpp:221-223 | the wait-for-word loop: with `new_word` already set nothing is read and the variable keeps its value; otherwise the first typed word is read and the rest is left |
| `Session.Console.SendAppCommand` | src/timonel-mss-esp32.cpp:70-94 | 'a' and 's' transmit one application command and change nothing else |
| `Session.Console.RebuildHandle` | src/timonel-mss-esp32.cpp:107-116 | the handle is replaced by a new one bound to the newly discovered address; the mode is the one that discovery reports |
| `Session.Console.ResetDevice` | src/timonel-mss-esp32.cpp:98-117 | application 'z' sends RESETMCU, then rebuilds the handle |
| `Session.Console.RestartMaster` | src/timonel-mss-esp32.cpp:140-146 | bootloader 'z' restarts the master and touches nothing else |
| `Session.Console.ShowVersion` | src/timonel-mss-esp32.cpp:150-164 | 'v' reads the status once, reports `PrintStatus` of it, and takes the mode from one bus scan |
| `Session.Console.RunUserApp` | src/timonel-mss-esp32.cpp:168-190 | 'r' issues RunApplication, then rebuilds the handle |
| `Session.Console.EraseFirmware` | src/timonel-mss-esp32.cpp:194-209 | 'e' issues DeleteApplication, rediscovers the mode and keeps the same handle |
| `Session.Console.SetFlashPageAddress` | src/timonel-mss-esp32.cpp:213-240 | the whole new state is `SetPageEffect`: without the feature bit nothing but the status read happens; otherwise a pending word is reused or one word is read, a rejected address becomes 0, an unknown bootloader start keeps the entered one, and `new_word` is cleared only when the address is accepted |
| `Session.Console.UploadFirmware` | src/timonel-mss-esp32.cpp:244-259 | 'w' uploads to the current page address and changes nothing else |
| `Session.Console.DumpFlash` | src/timonel-mss-esp32.cpp:264-271 | 'm' issues one memory dump |
| `Session.Console.WriteEepromByte` | src/timonel-mss-esp32.cpp:276-302 | the whole new state is `WriteEepromEffect`: an address above EEPROM_TOP is consumed, nothing is written and `new_word` is cleared; otherwise a second word is consumed, exactly one write of (address, data & 0xFF) is issued, `new_word` stays raised and `new_key` is cleared |
| `Session.Console.ReadAllEeprom` | src/timonel-mss-esp32.cpp:306-314 | 'o' reads every address 0..EEPROM_TOP exactly once, in increasing order, and shows the values read |
| `Session.Console.Execute` | src/timonel-mss-esp32.cpp:62-326 | the whole new state is `Effect` of the action: per key the calls issued, the mode, the page and EEPROM addresses, the input consumed and the word flags, exactly as that key's handler leaves them; only application 'z' and bootloader 'r' replace the handle (with one bound to the rediscovered address); help, ignored and unknown keys change nothing; only bootloader 'z' restarts; a report exactly for 'v', values shown only for 'o' |
| `Session.Console.ApplicationCommand` | src/timonel-mss-esp32.cpp:66-130 | the whole new state is `Effect` of the action: 'a' and 's' transmit one command, 'z' transmits RESETMCU and replaces the handle and mode from a rediscovery; help and ignored keys change nothing; nothing restarts |
| `Session.Console.BootloaderCommand` | src/timonel-mss-esp32.cpp:136-325 | the whole new state is `Effect` of the action, as each handler leaves it; only 'r' replaces the handle; 'r' and 'e' take the mode from a rediscovery, 'v' from one scan, every other command keeps it; an unknown key changes nothing; only 'z' restarts; a report exactly for 'v', values shown only for 'o' |
| `Session.Console.TakeKey` | src/timonel-mss-esp32.cpp:58-60 | a pending key is cleared and a discovery sets the mode flag; the handle is kept |
| `Session.Console.Command` | src/timonel-mss-esp32.cpp:58-327 | the whole new state is `Pass`: the key is cleared, the discovery sets the mode, the key's command runs in that mode with the state change `Effect` states, and unless the master restarted the menu follows (reading the status in bootloader mode); the menu is shown exactly when the master did not restart, for the mode after the command |
| `Session.Console.Redraw` | src/timonel-mss-esp32.cpp:466-471 | the menu for the current mode; in bootloader mode the status is read once more |
| `Session.Console.Loop` | src/timonel-mss-esp32.cpp:57-338 | the whole new state: with a pending key `Pass`, then, unless the master restarted, `NextKey`; without one only `NextKey`; plus the action, handle, mode and menu facts of `Command`; the report is `PrintStatus` of the status read exactly on a 'v' pass, the values shown are the EEPROM contents exactly on an 'o' pass, and a menu follows exactly when a key was taken and the master did not restart |
| `Session.VersionPass` | src/timonel-mss-esp32.cpp:150-164 | a pass for 'v' in bootloader mode, whose scan also reports the bootloader, reads the status twice (report and menu) and changes nothing else but the pending key |
| `Session.ErasePass` | src/timonel-mss-esp32.cpp:194-209 | a pass for 'e' in bootloader mode issues DeleteApplication, takes the mode from the rediscovery, and reads the status for the menu only in bootloader mode |
| `Session.VersionStep` | src/timonel-mss-esp32.cpp:57-338 | one pass of `loop()` for a pending 'v' leaves the call log grown by two status reads, the bootloader mode, the same handle, and the next typed character pending |
| `Session.EraseStep` | src/timonel-mss-esp32.cpp:57-338 | one pass of `loop()` for a pending 'e' leaves the log grown by DeleteApplication (and a status read if still in bootloader mode), the rediscovered mode and the same handle |
| `Session.VersionThenErase` | src/timonel-mss-esp32.cpp:57-338 | typing 'v' then 'e' in bootloader mode issues exactly: status, status, delete, and a final status read only if the device is still in bootloader mode |
| `Session.RejectedPageThenRetry` | src/timonel-mss-esp32.cpp:221-236 | after a rejected page address, the next 'b' reads no input and accepts 0x0000 |
| `Session.EepromWriteThenSetPage` | src/timonel-mss-esp32.cpp:291-300 | after an EEPROM write, the next 'b' reads no input and re-checks the page address already set |

## Left out

- The start-up header, status report and menu that `setup()` prints (lines 43-49) are not modelled; `Session.Console.Setup` states only the state it leaves, including the three status reads in bootloader mode. The same decisions are stated after each command by `ShowHeader`, `PrintStatus` and `ShowMenu`.
- Serial output: the text, ANSI escapes, the logo, `ClrScr` and the echo of typed characters. Only the decisions behind the text are modelled (reports, menus, headers, values shown).
- Real time: `delay`, and `RotaryDelay`, which only prints spinner frames and sleeps, and is never called. `millis()` is a reading carried by each scan.
- `ESP.restart()` becomes the `restarted` flag. What follows a restart (a new `setup()`) is a new `Console`.
- The master-side I2C library classes (`Timonel`, `TwiBus`, `NbMicro`), whose code is not shown, are not part of this model. Only the commands they send run on the device. Their replies are parameters, and the calls made on them are logged.
- Error codes returned by device calls are only printed, and no branch depends on them, so they are not modelled.
- The payload array and the arguments of `UploadApplication` and `DumpMemory`, other than the page address.
- The device-settings block of `PrintStatus` (lines 430-439) and the `Timonel::Status` value `PrintStatus` returns. No caller uses that value. Its `GetDevSettings` call is not logged: the call logs stated for 'v' and `setup()` (`Session.Console.Setup`, `Session.Console.ShowVersion`, `Session.VersionPass`, `Session.VersionStep`, `Session.VersionThenErase`) are those of a build without `E_CMD_READDEVS`, or of a device that does not report it.
- `atoi` on signs, leading white space and `int` overflow: a word is read as its leading digit run, with unbounded integers, then cast to 16 bits.
- `serial_data` is a non-static local in the source, so its contents do not survive between calls. The model keeps a persistent 16-slot buffer. `p_app_mode` points to a local of `setup()`; the model keeps the mode as a field.
- Characters arriving over time: the serial input is the sequence of characters typed so far. `ReadWord` calls that return before the word ends only produce values that are overwritten, so they are not modelled separately.
- The effect of a scan that finds no device on the mode flag is not visible here. Each scan carries the flag value it leaves behind.
- Unbounded waits: discovery never ends without an answering device, the word loops never end without a CR, and the 'o' sweep never ends when `EEPROM_TOP` is `0xFFFF` or more, because its `uint16_t` counter (line 309) wraps before passing it. The model requires an answering scan, a CR or `EEPROM_TOP < 0xFFFF` where the source would wait forever.
