/** The console session: the program's globals, the handlers of the keys, and one
    pass of `loop()`, which takes a typed key, rediscovers the device, dispatches the
    key in the current running mode and redraws the menu. */
module Session {
  import opened Common
  import opened StatusDecoder
  import opened WordReader
  import opened Discovery
  import opened Dispatch

  /** The transport object, bound to the bus address of the device. Its commands run
      on the device; the console records each one it issues. */
  class Timonel {
    const twiAddress: U8

    constructor (address: U8)
      ensures twiAddress == address
    {
      twiAddress := address;
    }
  }

  /** The single-byte application commands `TwiCmdXmit` sends. */
  datatype AppCommand = SetIo1On | SetIo1Off | ResetMcu

  /** A call the console makes on its device handle. */
  datatype DeviceCall =
    | TwiCmdXmit(command: AppCommand)
    | GetStatus
    | RunApplication
    | DeleteApplication
    | UploadApplication(pageAddress: U16)
    | DumpMemory
    | WriteEeprom(address: U16, data: U8)
    | ReadEeprom(address: U16)

  /** The `ReadEeprom` calls of a sweep over the first n addresses, lowest first. */
  function ReadSweep(n: nat): (r: seq<DeviceCall>)
    requires n <= 0x1_0000
    ensures |r| == n
    ensures forall a :: 0 <= a < n ==> r[a] == ReadEeprom(a)
  {
    if n == 0 then [] else ReadSweep(n - 1) + [ReadEeprom(n - 1)]
  }

  /** What the outside world supplies to one pass of `loop()`: the scans of the discovery
      that precedes every command, the record `GetStatus` returns to the command, the
      single scan of the version command, the scans of a rediscovery, the EEPROM contents
      and the record `GetStatus` returns to the menu. */
  datatype Environment = Environment(
    arrival: seq<Scan>,
    status: StatusRecord,
    probe: Scan,
    rediscovery: seq<Scan>,
    eeprom: nat -> U8,
    menuStatus: StatusRecord)

  /** The session variables, so that a contract can state a whole new state at once. */
  datatype Vars = Vars(
    input: seq<char>, key: char, newKey: bool, newWord: bool, appMode: bool,
    flashPageAddr: U16, eepromAddr: U16, handle: Timonel, calls: seq<DeviceCall>,
    restarted: bool)

  /** The device reports the set-page-address feature. */
  predicate SetPageSupported(cfg: Config, sts: StatusRecord)
  {
    BitSet(sts.featuresCode, cfg.fCmdSetPgAddr)
  }

  /** What the command of action a waits for, given the typed characters and whether a
      word is pending: a device that answers a rediscovery, a complete word for each
      number it reads, and an EEPROM_TOP its `uint16_t` counter can pass. */
  predicate CanRun(cfg: Config, a: Action, env: Environment, input: seq<char>, newWord: bool)
  {
    (Rediscovers(a) ==> DeviceAnswers(env.rediscovery))
    && (a == BootSetPage && SetPageSupported(cfg, env.status) && !newWord ==> EndMarker in input)
    && (a == BootWriteEeprom ==>
          EndMarker in input
          && (WordValue(FirstWord(input)) <= cfg.eepromTop ==> EndMarker in AfterWord(input)))
    && (a == BootReadEeprom ==> cfg.eepromTop < 0xFFFF)
  }

  /** The state 'b' leaves, from state v and the status record the device returns.
      Without the feature only the status is read. Otherwise a pending word is taken
      as it is, or a new one is read; an accepted address clears `new_word`, a
      rejected one becomes 0x0000, and an unknown bootloader start keeps the address
      entered. Both of the last two leave `new_word` raised. */
  function SetPageEffect(cfg: Config, sts: StatusRecord, v: Vars): Vars
    requires SetPageSupported(cfg, sts) && !v.newWord ==> EndMarker in v.input
  {
    if !SetPageSupported(cfg, sts) then v.(calls := v.calls + [GetStatus])
    else
      var entered := if v.newWord then v.flashPageAddr else WordValue(FirstWord(v.input));
      var check := CheckPageAddress(cfg, sts.bootloaderStart, entered);
      v.(calls := v.calls + [GetStatus],
         input := if v.newWord then v.input else AfterWord(v.input),
         flashPageAddr := if check == PageRejected then 0 else entered,
         newWord := check != PageAccepted)
  }

  /** The state 'p' leaves, from state v: an address beyond EEPROM_TOP is consumed and
      nothing is written; otherwise the data word is consumed too, truncated to a byte
      and written once, and `new_word` stays raised while `new_key` is cleared. */
  function WriteEepromEffect(cfg: Config, v: Vars): Vars
    requires EndMarker in v.input
    requires WordValue(FirstWord(v.input)) <= cfg.eepromTop ==> EndMarker in AfterWord(v.input)
  {
    var addr := WordValue(FirstWord(v.input));
    var rest := AfterWord(v.input);
    if addr > cfg.eepromTop then
      v.(input := rest, newWord := false, eepromAddr := addr)
    else
      v.(input := AfterWord(rest), newWord := true, newKey := false, eepromAddr := addr,
         calls := v.calls + [WriteEeprom(addr, ToU8(WordValue(FirstWord(rest))))])
  }

  /** The whole state the command of action a leaves, from state v; h is the handle
      the commands that rebuild it end with. */
  function Effect(cfg: Config, a: Action, env: Environment, v: Vars, h: Timonel): Vars
    requires CanRun(cfg, a, env, v.input, v.newWord)
  {
    match a
    case AppStartBlink => v.(calls := v.calls + [TwiCmdXmit(SetIo1On)])
    case AppStopBlink => v.(calls := v.calls + [TwiCmdXmit(SetIo1Off)])
    case AppReset =>
      v.(calls := v.calls + [TwiCmdXmit(ResetMcu)], appMode := AnsweringMode(env.rediscovery),
         handle := h)
    case AppHelp => v
    case AppIgnored => v
    case BootRestartMaster => v.(restarted := true)
    case BootVersion => v.(calls := v.calls + [GetStatus], appMode := env.probe.appMode)
    case BootRunApp =>
      v.(calls := v.calls + [RunApplication], appMode := AnsweringMode(env.rediscovery),
         handle := h)
    case BootErase =>
      v.(calls := v.calls + [DeleteApplication], appMode := AnsweringMode(env.rediscovery))
    case BootSetPage => SetPageEffect(cfg, env.status, v)
    case BootWriteFlash => v.(calls := v.calls + [UploadApplication(v.flashPageAddr)])
    case BootMemDump => v.(calls := v.calls + [DumpMemory])
    case BootWriteEeprom => WriteEepromEffect(cfg, v)
    case BootReadEeprom => v.(calls := v.calls + ReadSweep(cfg.eepromTop + 1))
    case BootUnknown => v
  }

  /** The state after `ReadChar`: the next typed character, if there is one, becomes
      the pending key. */
  function NextKey(v: Vars): Vars
  {
    if v.input == [] then v
    else v.(input := v.input[1..], key := v.input[0], newKey := true)
  }

  /** The state after the menu that follows a command: unless the master restarted, the
      menu reads the status in bootloader mode. */
  function Redrawn(v: Vars): Vars
  {
    if v.restarted then v
    else v.(calls := v.calls + (if v.appMode then [] else [GetStatus]))
  }

  /** The whole state one pass of `loop()` leaves for the pending key of state v: the
      key is taken, the discovery sets the mode, the key's command runs in that mode
      and the menu follows. */
  function Pass(cfg: Config, env: Environment, v: Vars, h: Timonel): Vars
    requires DeviceAnswers(env.arrival)
    requires CanRun(cfg, Classify(cfg, AnsweringMode(env.arrival), v.key), env, v.input, v.newWord)
  {
    var mode := AnsweringMode(env.arrival);
    Redrawn(Effect(cfg, Classify(cfg, mode, v.key), env, v.(newKey := false, appMode := mode), h))
  }

  /** The console's globals and the device handle. */
  class Console {
    const cfg: Config
    /** `ReadWord`'s buffer and index, and the global `new_word`. */
    const reader: LineReader
    /** The characters typed and not yet read from the serial port. */
    var input: seq<char>
    var key: char
    var newKey: bool
    /** `*p_app_mode`: the device runs the user application. */
    var appMode: bool
    var flashPageAddr: U16
    var eepromAddr: U16
    var handle: Timonel
    /** Every call issued on a device handle, in order. */
    var calls: seq<DeviceCall>
    /** `ESP.restart()` has been called. */
    var restarted: bool

    /** Between commands the word reader always waits at its first slot. */
    ghost predicate Valid()
      reads this, reader
    {
      reader.Valid() && reader.ix == 0
    }

    ghost function Now(): Vars
      reads this, reader
    {
      Vars(input, key, newKey, reader.newWord, appMode, flashPageAddr, eepromAddr, handle,
           calls, restarted)
    }

    /** The initial values of the globals and `setup()`: discover the device, build the
        handle on its address and, in bootloader mode, read and print its status
        (`GetStatus`, then `PrintStatus`, which reads it again) and show the menu
        (which reads it a third time). */
    constructor Setup(cfg: Config, typed: seq<char>, scans: seq<Scan>)
      requires DeviceAnswers(scans)
      ensures Valid() && fresh(reader) && fresh(handle) && this.cfg == cfg
      ensures handle.twiAddress == AnsweringAddress(scans)
      ensures Now() == Vars(typed, '\0', false, false, AnsweringMode(scans), 0, 0, handle,
                            if AnsweringMode(scans) then [] else [GetStatus, GetStatus, GetStatus],
                            false)
    {
      var address, mode, polled, spinner := DiscoverDevice(cfg.rotationDly, scans);
      this.cfg := cfg;
      reader := new LineReader();
      input := typed;
      key, newKey := '\0', false;
      flashPageAddr, eepromAddr := 0, 0;
      appMode := mode;
      handle := new Timonel(address);
      calls := if mode then [] else [GetStatus, GetStatus, GetStatus];
      restarted := false;
    }

    /** `ReadChar`: takes the next typed character as the key, if there is one. */
    method ReadChar()
      modifies this
      ensures Now() == NextKey(old(Now()))
    {
      if |input| > 0 {
        key := input[0];
        input := input[1..];
        newKey := true;
      }
    }

    /** `while (new_word == false) { x = ReadWord(); }` with x holding `current`: a word
        already pending is left as it is; otherwise the first typed word is read. */
    method AwaitWord(current: U16) returns (v: U16)
      requires Valid()
      requires reader.newWord || EndMarker in input
      modifies this, reader, reader.buf
      ensures Valid() && reader.newWord
      ensures old(reader.newWord) ==> v == current && Now() == old(Now())
      ensures !old(reader.newWord) ==>
                v == WordValue(FirstWord(old(input)))
                && Now() == old(Now()).(input := AfterWord(old(input)), newWord := true)
    {
      v := current;
      while !reader.newWord
        invariant reader.Valid()
        invariant !reader.newWord ==> reader.ix == 0 && EndMarker in input && input == old(input)
        invariant reader.newWord ==> reader.ix == 0
        invariant old(reader.newWord) ==> v == current && input == old(input)
        invariant !old(reader.newWord) && reader.newWord ==>
                    v == WordValue(FirstWord(old(input))) && input == AfterWord(old(input))
        invariant Now() == old(Now()).(input := input, newWord := reader.newWord)
        decreases if reader.newWord then 0 else 1
      {
        ghost var before := reader.State();
        ReadWordYields(before, input);
        var value, rest := reader.ReadWord(input);
        v, input := value, rest;
      }
    }

    /** `TwiCmdXmit` of an application command ('a', 's'). */
    method SendAppCommand(cmd: AppCommand)
      modifies this
      ensures Now() == old(Now()).(calls := old(calls) + [TwiCmdXmit(cmd)])
    {
      calls := calls + [TwiCmdXmit(cmd)];
    }

    /** Drop the handle, discover the device again and build a new handle on the
        address that answers; the running mode is the one that scan reports. */
    method RebuildHandle(scans: seq<Scan>) returns (header: RunningMode)
      requires DeviceAnswers(scans)
      modifies this
      ensures fresh(handle) && handle.twiAddress == AnsweringAddress(scans)
      ensures Now() == old(Now()).(appMode := AnsweringMode(scans), handle := handle)
      ensures header == ShowHeader(AnsweringMode(scans))
    {
      var address, mode, polled, spinner := DiscoverDevice(cfg.rotationDly, scans);
      appMode := mode;
      handle := new Timonel(address);
      header := ShowHeader(appMode);
    }

    /** 'z' in application mode: send RESETMCU, then rebuild the handle. */
    method ResetDevice(scans: seq<Scan>) returns (header: RunningMode)
      requires DeviceAnswers(scans)
      modifies this
      ensures fresh(handle) && handle.twiAddress == AnsweringAddress(scans)
      ensures Now() == old(Now()).(calls := old(calls) + [TwiCmdXmit(ResetMcu)],
                                   appMode := AnsweringMode(scans), handle := handle)
      ensures header == ShowHeader(AnsweringMode(scans))
    {
      calls := calls + [TwiCmdXmit(ResetMcu)];
      header := RebuildHandle(scans);
    }

    /** 'z' in bootloader mode: `ESP.restart()`, which ends the session. */
    method RestartMaster()
      modifies this
      ensures Now() == old(Now()).(restarted := true)
    {
      restarted := true;
    }

    /** 'v': print the status of the device, then scan the bus once, which sets the mode
        flag from that single scan. */
    method ShowVersion(sts: StatusRecord, probe: Scan) returns (report: Report)
      modifies this
      ensures report == PrintStatus(cfg, sts, handle.twiAddress)
      ensures Now() == old(Now()).(calls := old(calls) + [GetStatus], appMode := probe.appMode)
    {
      calls := calls + [GetStatus];
      report := PrintStatus(cfg, sts, handle.twiAddress);
      appMode := probe.appMode;
    }

    /** 'r': exit the bootloader, then rebuild the handle. */
    method RunUserApp(scans: seq<Scan>) returns (header: RunningMode)
      requires DeviceAnswers(scans)
      modifies this
      ensures fresh(handle) && handle.twiAddress == AnsweringAddress(scans)
      ensures Now() == old(Now()).(calls := old(calls) + [RunApplication],
                                   appMode := AnsweringMode(scans), handle := handle)
      ensures header == ShowHeader(AnsweringMode(scans))
    {
      calls := calls + [RunApplication];
      header := RebuildHandle(scans);
    }

    /** 'e': delete the application, then discover the device again; the handle stays. */
    method EraseFirmware(scans: seq<Scan>)
      requires DeviceAnswers(scans)
      modifies this
      ensures Now() == old(Now()).(calls := old(calls) + [DeleteApplication],
                                   appMode := AnsweringMode(scans))
    {
      calls := calls + [DeleteApplication];
      var address, mode, polled, spinner := DiscoverDevice(cfg.rotationDly, scans);
      appMode := mode;
    }

    /** 'b': read the status; without the feature nothing else happens. Otherwise a
        pending word is taken as it is, or a new one is read, and the value is checked:
        an unknown bootloader start stops the command, a rejected address becomes
        0x0000, and only an accepted one clears `new_word`. */
    method SetFlashPageAddress(sts: StatusRecord)
      requires Valid()
      requires SetPageSupported(cfg, sts) && !reader.newWord ==> EndMarker in input
      modifies this, reader, reader.buf
      ensures Valid()
      ensures Now() == SetPageEffect(cfg, sts, old(Now()))
    {
      calls := calls + [GetStatus];
      if !SetPageSupported(cfg, sts) {
        return;
      }
      flashPageAddr := AwaitWord(flashPageAddr);
      if reader.newWord {
        if sts.bootloaderStart > cfg.mcuTotalMem {
          return;
        }
        if flashPageAddr > sts.bootloaderStart - cfg.spmPageSize || flashPageAddr == 0xFFFF {
          flashPageAddr := 0;
          return;
        }
      }
      reader.newWord := false;
    }

    /** 'w': upload the payload to the current flash page address. */
    method UploadFirmware()
      modifies this
      ensures Now() == old(Now()).(calls := old(calls) + [UploadApplication(old(flashPageAddr))])
    {
      calls := calls + [UploadApplication(flashPageAddr)];
    }

    /** 'm': dump the flash memory. */
    method DumpFlash()
      modifies this
      ensures Now() == old(Now()).(calls := old(calls) + [DumpMemory])
    {
      calls := calls + [DumpMemory];
    }

    /** 'p': clear `new_word`, read an address; one beyond EEPROM_TOP ends the command
        with `new_word` cleared and nothing written. Otherwise read the data, truncate it
        to a byte and write it once. */
    method WriteEepromByte()
      requires Valid()
      requires EndMarker in input
      requires WordValue(FirstWord(input)) <= cfg.eepromTop ==> EndMarker in AfterWord(input)
      modifies this, reader, reader.buf
      ensures Valid()
      ensures Now() == WriteEepromEffect(cfg, old(Now()))
    {
      reader.newWord := false;
      var data: U8 := 0;
      eepromAddr := AwaitWord(eepromAddr);
      if eepromAddr > cfg.eepromTop {
        reader.newWord := false;
        return;
      }
      reader.newWord := false;
      var value := AwaitWord(data);
      data := ToU8(value);
      if reader.newWord {
        newKey := false;
      }
      calls := calls + [WriteEeprom(eepromAddr, data)];
    }

    /** 'o': read every EEPROM address from 0 to EEPROM_TOP once, in increasing order.
        The `uint16_t` counter only gets past EEPROM_TOP when EEPROM_TOP < 0xFFFF. */
    method ReadAllEeprom(contents: nat -> U8) returns (shown: seq<U8>)
      requires cfg.eepromTop < 0xFFFF
      modifies this
      ensures |shown| == cfg.eepromTop + 1
      ensures forall a :: 0 <= a < |shown| ==> shown[a] == contents(a)
      ensures Now() == old(Now()).(calls := old(calls) + ReadSweep(cfg.eepromTop + 1))
    {
      shown := [];
      var eeAddr: U16 := 0;
      while eeAddr <= cfg.eepromTop
        invariant eeAddr <= cfg.eepromTop + 1
        invariant |shown| == eeAddr
        invariant forall a :: 0 <= a < eeAddr ==> shown[a] == contents(a)
        invariant Now() == old(Now()).(calls := old(calls) + ReadSweep(eeAddr))
      {
        calls := calls + [ReadEeprom(eeAddr)];
        shown := shown + [contents(eeAddr)];
        eeAddr := eeAddr + 1;
      }
    }

    /** What one pass of `loop()` needs from the world to finish: a device that answers
        the discovery before the command, and whatever the dispatched command waits for. */
    ghost predicate Ready(env: Environment)
      reads this, reader
    {
      newKey ==>
        DeviceAnswers(env.arrival)
        && CanRun(cfg, Classify(cfg, AnsweringMode(env.arrival), key), env, input, reader.newWord)
    }

    /** The `switch (key)` of `loop()` once the key has been classified. */
    method Execute(a: Action, env: Environment) returns (report: Option<Report>, shown: seq<U8>)
      requires Valid() && !restarted && CanRun(cfg, a, env, input, reader.newWord)
      modifies this, reader, reader.buf
      ensures Valid()
      ensures RebuildsHandle(a) ==>
                fresh(handle) && handle.twiAddress == AnsweringAddress(env.rediscovery)
                && appMode == AnsweringMode(env.rediscovery)
      ensures !RebuildsHandle(a) ==> handle == old(handle)
      ensures a == BootErase ==> appMode == AnsweringMode(env.rediscovery)
      ensures a == BootVersion ==> appMode == env.probe.appMode
      ensures !Rediscovers(a) && a != BootVersion ==> appMode == old(appMode)
      ensures Inert(a) ==> Now() == old(Now())
      ensures restarted <==> a == BootRestartMaster
      ensures Now() == Effect(cfg, a, env, old(Now()), handle)
      ensures report.Some? <==> a == BootVersion
      ensures report.Some? ==> report.value == PrintStatus(cfg, env.status, handle.twiAddress)
      ensures a != BootReadEeprom ==> shown == []
      ensures a == BootReadEeprom ==>
                |shown| == cfg.eepromTop + 1 && forall i :: 0 <= i < |shown| ==> shown[i] == env.eeprom(i)
    {
      if a.InApplicationTable() {
        report, shown := None, [];
        ApplicationCommand(a, env);
      } else {
        report, shown := BootloaderCommand(a, env);
      }
    }

    /** The switch of application mode. */
    method ApplicationCommand(a: Action, env: Environment)
      requires a.InApplicationTable() && !restarted
      requires a == AppReset ==> DeviceAnswers(env.rediscovery)
      modifies this
      ensures a == AppReset ==>
                fresh(handle) && handle.twiAddress == AnsweringAddress(env.rediscovery)
                && appMode == AnsweringMode(env.rediscovery)
      ensures a != AppReset ==> handle == old(handle) && appMode == old(appMode)
      ensures Inert(a) ==> Now() == old(Now())
      ensures !restarted
      ensures Now() == Effect(cfg, a, env, old(Now()), handle)
    {
      match a
      case AppStartBlink => SendAppCommand(SetIo1On);
      case AppStopBlink => SendAppCommand(SetIo1Off);
      case AppReset => var header := ResetDevice(env.rediscovery);
      case AppHelp =>
      case AppIgnored =>
    }

    /** The switch of bootloader mode. */
    method BootloaderCommand(a: Action, env: Environment)
      returns (report: Option<Report>, shown: seq<U8>)
      requires Valid() && !a.InApplicationTable() && !restarted
      requires a == BootRunApp || a == BootErase ==> DeviceAnswers(env.rediscovery)
      requires a == BootSetPage && SetPageSupported(cfg, env.status) && !reader.newWord
               ==> EndMarker in input
      requires a == BootWriteEeprom ==>
                 EndMarker in input
                 && (WordValue(FirstWord(input)) <= cfg.eepromTop ==> EndMarker in AfterWord(input))
      requires a == BootReadEeprom ==> cfg.eepromTop < 0xFFFF
      modifies this, reader, reader.buf
      ensures Valid()
      ensures a == BootRunApp ==>
                fresh(handle) && handle.twiAddress == AnsweringAddress(env.rediscovery)
                && appMode == AnsweringMode(env.rediscovery)
      ensures a != BootRunApp ==> handle == old(handle)
      ensures a == BootErase ==> appMode == AnsweringMode(env.rediscovery)
      ensures a == BootVersion ==> appMode == env.probe.appMode
      ensures a != BootRunApp && a != BootErase && a != BootVersion ==> appMode == old(appMode)
      ensures a == BootUnknown ==> Now() == old(Now())
      ensures restarted <==> a == BootRestartMaster
      ensures Now() == Effect(cfg, a, env, old(Now()), handle)
      ensures report.Some? <==> a == BootVersion
      ensures report.Some? ==> report.value == PrintStatus(cfg, env.status, handle.twiAddress)
      ensures a != BootReadEeprom ==> shown == []
      ensures a == BootReadEeprom ==>
                |shown| == cfg.eepromTop + 1 && forall i :: 0 <= i < |shown| ==> shown[i] == env.eeprom(i)
    {
      report, shown := None, [];
      match a
      case BootRestartMaster => RestartMaster();
      case BootVersion =>
        var r := ShowVersion(env.status, env.probe);
        report := Some(r);
      case BootRunApp => var header := RunUserApp(env.rediscovery);
      case BootErase => EraseFirmware(env.rediscovery);
      case BootSetPage => SetFlashPageAddress(env.status);
      case BootWriteFlash => UploadFirmware();
      case BootMemDump => DumpFlash();
      case BootWriteEeprom => WriteEepromByte();
      case BootReadEeprom => shown := ReadAllEeprom(env.eeprom);
      case BootUnknown =>
    }

    /** The body of `loop()` for a pending key: discover the device, run the command
        of the key in the mode found and, unless the master restarted, show the menu
        (which reads the status in bootloader mode). */
    method Command(env: Environment)
      returns (action: Action, report: Option<Report>, shown: seq<U8>, menu: Option<Menu>)
      requires Valid() && !restarted && newKey && Ready(env)
      modifies this, reader, reader.buf
      ensures Valid()
      ensures action == Classify(cfg, AnsweringMode(env.arrival), old(key))
      ensures RebuildsHandle(action) ==>
                fresh(handle) && handle.twiAddress == AnsweringAddress(env.rediscovery)
                && appMode == AnsweringMode(env.rediscovery)
      ensures !RebuildsHandle(action) ==> handle == old(handle)
      ensures action == BootErase ==> appMode == AnsweringMode(env.rediscovery)
      ensures Inert(action) ==> calls == old(calls) + (if appMode then [] else [GetStatus])
      ensures restarted <==> action == BootRestartMaster
      ensures menu.Some? <==> !restarted
      ensures menu.Some? ==> menu.value == ShowMenu(cfg, appMode, env.menuStatus)
      ensures Now() == Pass(cfg, env, old(Now()), handle)
      ensures report.Some? <==> action == BootVersion
      ensures report.Some? ==> report.value == PrintStatus(cfg, env.status, handle.twiAddress)
      ensures action != BootReadEeprom ==> shown == []
      ensures action == BootReadEeprom ==>
                |shown| == cfg.eepromTop + 1 && forall i :: 0 <= i < |shown| ==> shown[i] == env.eeprom(i)
    {
      TakeKey(env.arrival);
      action := Classify(cfg, appMode, key);
      report, shown := Execute(action, env);
      if restarted {
        menu := None;
        return;
      }
      var m := Redraw(env.menuStatus);
      menu := Some(m);
    }

    /** The start of `loop()` for a pending key: clear `new_key` and discover the
        device, whose scan sets the mode flag; the handle is not rebuilt. */
    method TakeKey(arrival: seq<Scan>)
      requires DeviceAnswers(arrival)
      modifies this
      ensures Now() == old(Now()).(newKey := false, appMode := AnsweringMode(arrival))
    {
      newKey := false;
      var address, mode, polled, spinner := DiscoverDevice(cfg.rotationDly, arrival);
      appMode := mode;
    }

    /** `ShowMenu` after a command; in bootloader mode it reads the status first. */
    method Redraw(sts: StatusRecord) returns (m: Menu)
      modifies this
      ensures m == ShowMenu(cfg, appMode, sts)
      ensures Now() == old(Now()).(calls := old(calls) + (if appMode then [] else [GetStatus]))
    {
      m := ShowMenu(cfg, appMode, sts);
      if !appMode {
        calls := calls + [GetStatus];
      }
    }

    /** One pass of `loop()`: a pending key triggers discovery, the command of the key in
        the running mode found, and the menu; then the next character is taken. */
    method Loop(env: Environment)
      returns (action: Option<Action>, report: Option<Report>, shown: seq<U8>, menu: Option<Menu>)
      requires Valid() && !restarted && Ready(env)
      modifies this, reader, reader.buf
      ensures Valid()
      ensures !old(newKey) ==>
                action == None && menu == None && calls == old(calls)
                && appMode == old(appMode) && handle == old(handle)
      ensures old(newKey) ==> action == Some(Classify(cfg, AnsweringMode(env.arrival), old(key)))
      ensures action.Some? && RebuildsHandle(action.value) ==>
                fresh(handle) && handle.twiAddress == AnsweringAddress(env.rediscovery)
                && appMode == AnsweringMode(env.rediscovery)
      ensures action.Some? && !RebuildsHandle(action.value) ==> handle == old(handle)
      ensures action == Some(BootErase) ==> appMode == AnsweringMode(env.rediscovery)
      ensures action.Some? && Inert(action.value) ==>
                calls == old(calls) + (if appMode then [] else [GetStatus])
      ensures restarted <==> action == Some(BootRestartMaster)
      ensures !restarted ==>
                (menu.Some? <==> action.Some?)
                && (menu.Some? ==> menu.value == ShowMenu(cfg, appMode, env.menuStatus))
      ensures !old(newKey) ==> Now() == NextKey(old(Now()))
      ensures old(newKey) && restarted ==> Now() == Pass(cfg, env, old(Now()), handle)
      ensures old(newKey) && !restarted ==> Now() == NextKey(Pass(cfg, env, old(Now()), handle))
      ensures report.Some? <==> action == Some(BootVersion)
      ensures report.Some? ==> report.value == PrintStatus(cfg, env.status, handle.twiAddress)
      ensures action != Some(BootReadEeprom) ==> shown == []
      ensures action == Some(BootReadEeprom) ==>
                |shown| == cfg.eepromTop + 1 && forall i :: 0 <= i < |shown| ==> shown[i] == env.eeprom(i)
      ensures menu.Some? <==> action.Some? && !restarted
    {
      action, report, shown, menu := None, None, [], None;
      if newKey {
        var a;
        a, report, shown, menu := Command(env);
        action := Some(a);
        if restarted {
          return;
        }
      }
      ReadChar();
    }
  }

  /** A rejected page address leaves `new_word` raised, so the next 'b' reads no input
      and accepts the 0x0000 the rejection left behind. */
  method RejectedPageThenRetry(c: Console, sts: StatusRecord)
    requires c.Valid() && SetPageSupported(c.cfg, sts)
    requires !c.reader.newWord && EndMarker in c.input
    requires CheckPageAddress(c.cfg, sts.bootloaderStart, WordValue(FirstWord(c.input))) == PageRejected
    requires CheckPageAddress(c.cfg, sts.bootloaderStart, 0) == PageAccepted
    modifies c, c.reader, c.reader.buf
    ensures c.flashPageAddr == 0 && !c.reader.newWord
    ensures c.input == AfterWord(old(c.input))
  {
    c.SetFlashPageAddress(sts);
    assert c.reader.newWord && c.flashPageAddr == 0;
    c.SetFlashPageAddress(sts);
  }

  /** An EEPROM write leaves `new_word` raised too, so a 'b' right after it reads no
      input and checks the flash page address already set. */
  method EepromWriteThenSetPage(c: Console, sts: StatusRecord)
    requires c.Valid() && SetPageSupported(c.cfg, sts)
    requires EndMarker in c.input && WordValue(FirstWord(c.input)) <= c.cfg.eepromTop
    requires EndMarker in AfterWord(c.input)
    modifies c, c.reader, c.reader.buf
    ensures c.input == AfterWord(AfterWord(old(c.input)))
    ensures var check := CheckPageAddress(c.cfg, sts.bootloaderStart, old(c.flashPageAddr));
            c.flashPageAddr == (if check == PageRejected then 0 else old(c.flashPageAddr))
  {
    c.WriteEepromByte();
    assert c.reader.newWord && c.flashPageAddr == old(c.flashPageAddr);
    c.SetFlashPageAddress(sts);
  }

  /** A 'v' pass in bootloader mode, when the single scan also reports the bootloader:
      the status is read for the report and once more for the menu. */
  lemma VersionPass(cfg: Config, env: Environment, v: Vars, h: Timonel)
    requires DeviceAnswers(env.arrival) && !AnsweringMode(env.arrival) && !env.probe.appMode
    requires v.key == 'v' && !v.restarted
    ensures Classify(cfg, false, 'v') == BootVersion
    ensures Pass(cfg, env, v, h)
            == v.(newKey := false, appMode := false, calls := v.calls + [GetStatus, GetStatus])
  {
    assert Classify(cfg, false, 'v') == BootVersion;
  }

  /** An 'e' pass in bootloader mode: the application is deleted, the rediscovery sets
      the mode, and the menu reads the status only if the device still runs the
      bootloader. */
  lemma ErasePass(cfg: Config, env: Environment, v: Vars, h: Timonel)
    requires DeviceAnswers(env.arrival) && !AnsweringMode(env.arrival)
    requires DeviceAnswers(env.rediscovery) && v.key == 'e' && !v.restarted
    ensures Classify(cfg, false, 'e') == BootErase
    ensures var mode := AnsweringMode(env.rediscovery);
            Pass(cfg, env, v, h)
            == v.(newKey := false, appMode := mode,
                  calls := v.calls + [DeleteApplication] + (if mode then [] else [GetStatus]))
  {
    assert Classify(cfg, false, 'e') == BootErase;
  }

  /** A pass of `loop()` for a pending 'v' in bootloader mode, when the single scan also
      reports the bootloader: the status is read for the report and once more for the
      menu, and the next typed character becomes the pending key. */
  method VersionStep(c: Console, env: Environment)
    requires c.Valid() && !c.restarted && c.newKey && c.key == 'v' && c.input != []
    requires DeviceAnswers(env.arrival) && !AnsweringMode(env.arrival) && !env.probe.appMode
    modifies c, c.reader, c.reader.buf
    ensures c.Valid() && !c.restarted && c.newKey && !c.appMode && c.handle == old(c.handle)
    ensures c.key == old(c.input)[0] && c.input == old(c.input)[1..]
    ensures c.calls == old(c.calls) + [GetStatus, GetStatus]
  {
    VersionPass(c.cfg, env, c.Now(), c.handle);
    var action, report, shown, menu := c.Loop(env);
  }

  /** A pass of `loop()` for a pending 'e' in bootloader mode: the application is
      deleted, the rediscovery sets the mode, the menu reads the status only in
      bootloader mode, and the next typed character, if any, becomes the pending key. */
  method EraseStep(c: Console, env: Environment)
    requires c.Valid() && !c.restarted && c.newKey && c.key == 'e'
    requires DeviceAnswers(env.arrival) && !AnsweringMode(env.arrival)
    requires DeviceAnswers(env.rediscovery)
    modifies c, c.reader, c.reader.buf
    ensures c.Valid() && !c.restarted && c.handle == old(c.handle)
    ensures c.appMode == AnsweringMode(env.rediscovery)
    ensures c.input == (if old(c.input) == [] then [] else old(c.input)[1..])
    ensures c.calls
            == old(c.calls) + [DeleteApplication]
               + (if AnsweringMode(env.rediscovery) then [] else [GetStatus])
  {
    ErasePass(c.cfg, env, c.Now(), c.handle);
    var action, report, shown, menu := c.Loop(env);
  }

  /** Two passes of `loop()` in bootloader mode: 'v' prints the status, and the menu reads
      it once more; 'e' then erases the application and rediscovers the device, and the
      menu reads the status again only if the device still runs the bootloader. */
  method VersionThenErase(c: Console, env1: Environment, env2: Environment, rest: seq<char>)
    requires c.Valid() && !c.restarted && c.newKey && c.key == 'v' && c.input == ['e'] + rest
    requires DeviceAnswers(env1.arrival) && !AnsweringMode(env1.arrival) && !env1.probe.appMode
    requires DeviceAnswers(env2.arrival) && !AnsweringMode(env2.arrival)
    requires DeviceAnswers(env2.rediscovery)
    modifies c, c.reader, c.reader.buf
    ensures c.calls
            == old(c.calls) + [GetStatus, GetStatus, DeleteApplication]
               + (if AnsweringMode(env2.rediscovery) then [] else [GetStatus])
    ensures c.appMode == AnsweringMode(env2.rediscovery) && c.handle == old(c.handle)
    ensures !c.restarted && c.input == (if rest == [] then [] else rest[1..])
  {
    VersionStep(c, env1);
    EraseStep(c, env2);
    assert old(c.calls) + [GetStatus, GetStatus] + [DeleteApplication]
           == old(c.calls) + [GetStatus, GetStatus, DeleteApplication];
  }
}
