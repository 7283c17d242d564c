/** The command tables of the console loop: which action a key selects in each
    running mode, the menu and header shown for a mode, and the validation of an
    entered flash page address. */
module Dispatch {
  import opened Common
  import opened StatusDecoder

  /** What a key press does. The `App` actions form the application-mode table,
      the `Boot` actions the bootloader-mode table. */
  datatype Action =
    | AppStartBlink      // 'a' 'A': transmit SETIO1_1
    | AppStopBlink       // 's' 'S': transmit SETIO1_0
    | AppReset           // 'z' 'Z': transmit RESETMCU, then rebuild the handle
    | AppHelp            // '?' 'h' 'H'
    | AppIgnored         // any other key: the switch has no default
    | BootRestartMaster  // 'z' 'Z': restart the ESP32
    | BootVersion        // 'v' 'V' 13: print the status, scan the bus once
    | BootRunApp         // 'r' 'R': exit the bootloader, then rebuild the handle
    | BootErase          // 'e' 'E': delete the application, then rediscover
    | BootSetPage        // 'b' 'B': set the flash page address
    | BootWriteFlash     // 'w' 'W': upload the payload
    | BootMemDump        // 'm' 'M': only when flash reading is compiled in
    | BootWriteEeprom    // 'p' 'P': only when flash reading and EEPROM access are compiled in
    | BootReadEeprom     // 'o' 'O': likewise
    | BootUnknown        // any other key: "Command unknown"
  {
    predicate InApplicationTable()
    {
      this == AppStartBlink || this == AppStopBlink || this == AppReset || this == AppHelp
      || this == AppIgnored
    }
  }

  /** The keys the application-mode switch has a case for. */
  predicate IsAppKey(key: char)
  {
    key == 'a' || key == 'A' || key == 's' || key == 'S' || key == 'z' || key == 'Z'
    || key == '?' || key == 'h' || key == 'H'
  }

  /** The keys the bootloader-mode switch has a case for in a build with configuration cfg. */
  predicate IsBootKey(cfg: Config, key: char)
  {
    key == 'z' || key == 'Z' || key == 'v' || key == 'V' || key == '\r'
    || key == 'r' || key == 'R' || key == 'e' || key == 'E' || key == 'b' || key == 'B'
    || key == 'w' || key == 'W'
    || (cfg.ReadFlashCompiled() && (key == 'm' || key == 'M'))
    || (cfg.ReadFlashCompiled() && cfg.EepromCompiled()
        && (key == 'p' || key == 'P' || key == 'o' || key == 'O'))
  }

  /** The `switch (key)` of `loop()` in the given running mode. */
  function Classify(cfg: Config, appMode: bool, key: char): (a: Action)
    ensures a.InApplicationTable() <==> appMode
    ensures appMode ==> (a != AppIgnored <==> IsAppKey(key))
    ensures !appMode ==> (a != BootUnknown <==> IsBootKey(cfg, key))
    ensures a == BootMemDump ==> cfg.ReadFlashCompiled()
    ensures a == BootWriteEeprom || a == BootReadEeprom ==> cfg.ReadFlashCompiled() && cfg.EepromCompiled()
  {
    if appMode then ApplicationAction(key) else BootloaderAction(cfg, key)
  }

  /** The application-mode switch: it has no default case. */
  function ApplicationAction(key: char): (a: Action)
    ensures a.InApplicationTable()
    ensures a != AppIgnored <==> IsAppKey(key)
  {
    match key
    case 'a' | 'A' => AppStartBlink
    case 's' | 'S' => AppStopBlink
    case 'z' | 'Z' => AppReset
    case '?' | 'h' | 'H' => AppHelp
    case _ => AppIgnored
  }

  /** The bootloader-mode switch, with the cases the build compiles in. */
  function BootloaderAction(cfg: Config, key: char): (a: Action)
    ensures !a.InApplicationTable()
    ensures a != BootUnknown <==> IsBootKey(cfg, key)
    ensures a == BootMemDump ==> cfg.ReadFlashCompiled()
    ensures a == BootWriteEeprom || a == BootReadEeprom ==> cfg.ReadFlashCompiled() && cfg.EepromCompiled()
  {
    match key
    case 'z' | 'Z' => BootRestartMaster
    case 'v' | 'V' | '\r' => BootVersion
    case 'r' | 'R' => BootRunApp
    case 'e' | 'E' => BootErase
    case 'b' | 'B' => BootSetPage
    case 'w' | 'W' => BootWriteFlash
    case 'm' | 'M' => if cfg.ReadFlashCompiled() then BootMemDump else BootUnknown
    case 'p' | 'P' =>
      if cfg.ReadFlashCompiled() && cfg.EepromCompiled() then BootWriteEeprom else BootUnknown
    case 'o' | 'O' =>
      if cfg.ReadFlashCompiled() && cfg.EepromCompiled() then BootReadEeprom else BootUnknown
    case _ => BootUnknown
  }

  /** The keys that change nothing: help (whose text is not modelled), a key the
      application switch ignores, and an unknown bootloader command. */
  predicate Inert(a: Action)
  {
    a == AppHelp || a == AppIgnored || a == BootUnknown
  }

  /** Whether an action replaces the device handle with a new one. */
  predicate RebuildsHandle(a: Action)
  {
    a == AppReset || a == BootRunApp
  }

  /** Whether an action runs device discovery after its command. */
  predicate Rediscovers(a: Action)
  {
    RebuildsHandle(a) || a == BootErase
  }

  /** Only the reset of the application changes the running mode from application mode. */
  lemma OnlyResetLeavesApplicationMode(cfg: Config, key: char)
    ensures Rediscovers(Classify(cfg, true, key)) <==> key == 'z' || key == 'Z'
  {
  }

  /** The banner of `ShowHeader`. */
  datatype RunningMode = UserApplication | TimonelBootloader

  /** `ShowHeader`: the banner names the user application exactly when the mode flag
      says the user application runs, as `ShowMenu` picks its prompt. */
  function ShowHeader(appMode: bool): (h: RunningMode)
    ensures h == UserApplication <==> appMode
  {
    if appMode then UserApplication else TimonelBootloader
  }

  /** The entries of the bootloader prompt. */
  datatype MenuItem =
    | ItemResetMaster | ItemVersion | ItemRunApp | ItemEraseFlash | ItemWriteFlash
    | ItemSetAddr | ItemMemDump | ItemEeprom

  /** The prompt `ShowMenu` prints. */
  datatype Menu = AppMenu | BootMenu(items: seq<MenuItem>)

  /** The letters a menu entry tells the operator to press. */
  predicate NamesKey(item: MenuItem, c: char)
  {
    match item
    case ItemResetMaster => c == 'z'
    case ItemVersion => c == 'v'
    case ItemRunApp => c == 'r'
    case ItemEraseFlash => c == 'e'
    case ItemWriteFlash => c == 'w'
    case ItemSetAddr => c == 'b'
    case ItemMemDump => c == 'm'
    case ItemEeprom => c == 'o' || c == 'p'
  }

  /** `ShowMenu`: the application prompt in application mode, otherwise the
      bootloader prompt with the entries `BootMenuItems` lists. */
  function ShowMenu(cfg: Config, appMode: bool, sts: StatusRecord): (m: Menu)
    ensures m.AppMenu? <==> appMode
    ensures m.BootMenu? ==> m.items == BootMenuItems(cfg, sts)
  {
    if appMode then AppMenu else BootMenu(BootMenuItems(cfg, sts))
  }

  /** The entries of the bootloader prompt: the five fixed ones, then each optional
      entry whose feature is both compiled into the master and reported by the device. */
  function BootMenuItems(cfg: Config, sts: StatusRecord): (items: seq<MenuItem>)
    ensures |items| >= 5
    ensures items[..5] == [ItemResetMaster, ItemVersion, ItemRunApp, ItemEraseFlash, ItemWriteFlash]
    ensures ItemSetAddr in items
            <==> cfg.SetPgAddrCompiled() && BitSet(sts.featuresCode, cfg.fCmdSetPgAddr)
    ensures ItemMemDump in items
            <==> cfg.ReadFlashCompiled() && BitSet(sts.featuresCode, cfg.fCmdReadFlash)
    ensures ItemEeprom in items
            <==> cfg.EepromCompiled() && BitSet(sts.extFeaturesCode, cfg.eEepromAccess)
    ensures InMenuOrder(items)
    ensures |items| <= 8
  {
    var base := FixedItems();
    var optional :=
      OptionalItems(
        cfg.SetPgAddrCompiled() && BitSet(sts.featuresCode, cfg.fCmdSetPgAddr),
        cfg.ReadFlashCompiled() && BitSet(sts.featuresCode, cfg.fCmdReadFlash),
        cfg.EepromCompiled() && BitSet(sts.extFeaturesCode, cfg.eEepromAccess));
    assert (base + optional)[..5] == base;
    FixedItemsInOrder();
    JoinInMenuOrder(base, optional);
    base + optional
  }

  /** The entries the bootloader prompt always prints. */
  function FixedItems(): seq<MenuItem>
  {
    [ItemResetMaster, ItemVersion, ItemRunApp, ItemEraseFlash, ItemWriteFlash]
  }

  /** The fixed entries come in menu order, before every optional one. */
  lemma FixedItemsInOrder()
    ensures InMenuOrder(FixedItems())
    ensures forall x :: x in FixedItems() ==> MenuOrder(x) <= 4
  {
  }

  /** The optional entries of the bootloader prompt, 'b', 'm' and 'o/p' in that order,
      each printed exactly when its condition holds. */
  function OptionalItems(setAddr: bool, memDump: bool, eeprom: bool): (s: seq<MenuItem>)
    ensures |s| <= 3
    ensures InMenuOrder(s)
    ensures forall x :: x in s ==> MenuOrder(x) >= 5
    ensures ItemSetAddr in s <==> setAddr
    ensures ItemMemDump in s <==> memDump
    ensures ItemEeprom in s <==> eeprom
  {
    Offered(setAddr, ItemSetAddr) + Offered(memDump, ItemMemDump) + Offered(eeprom, ItemEeprom)
  }

  /** No entry is repeated and the entries come in the order of the printed prompt. */
  predicate InMenuOrder(s: seq<MenuItem>)
  {
    forall i, j :: 0 <= i < j < |s| ==> MenuOrder(s[i]) < MenuOrder(s[j])
  }

  /** Two lists in menu order, the first wholly before the second, join in menu order. */
  lemma JoinInMenuOrder(a: seq<MenuItem>, b: seq<MenuItem>)
    requires InMenuOrder(a) && InMenuOrder(b)
    requires forall x :: x in a ==> MenuOrder(x) <= 4
    requires forall y :: y in b ==> MenuOrder(y) >= 5
    ensures InMenuOrder(a + b)
  {
    forall i, j | 0 <= i < j < |a + b|
      ensures MenuOrder((a + b)[i]) < MenuOrder((a + b)[j])
    {
      if j < |a| {
      } else if i < |a| {
        assert (a + b)[i] in a && (a + b)[j] in b;
      } else {
        assert (a + b)[i] == b[i - |a|] && (a + b)[j] == b[j - |a|];
      }
    }
  }

  /** The place of an entry in the printed prompt: the fixed entries, then 'b', 'm'
      and 'o/p'. */
  function MenuOrder(item: MenuItem): nat
  {
    match item
    case ItemResetMaster => 0
    case ItemVersion => 1
    case ItemRunApp => 2
    case ItemEraseFlash => 3
    case ItemWriteFlash => 4
    case ItemSetAddr => 5
    case ItemMemDump => 6
    case ItemEeprom => 7
  }

  /** An optional menu entry: printed exactly when its condition holds. */
  function Offered(shown: bool, item: MenuItem): (s: seq<MenuItem>)
    ensures forall x :: x in s <==> shown && x == item
    ensures |s| <= 1
  {
    if shown then [item] else []
  }

  /** Every key the bootloader prompt offers is one the dispatcher handles, as long as
      EEPROM access is compiled in only together with flash reading. */
  lemma MenuKeysAreDispatched(cfg: Config, sts: StatusRecord, item: MenuItem, c: char)
    requires item in ShowMenu(cfg, false, sts).items && NamesKey(item, c)
    requires cfg.EepromCompiled() ==> cfg.ReadFlashCompiled()
    ensures Classify(cfg, false, c) != BootUnknown
  {
    MenuKeysSelectTheirCommand(cfg, sts, item, c);
  }

  /** The command a bootloader-menu entry announces. */
  function AnnouncedAction(item: MenuItem, c: char): Action
  {
    match item
    case ItemResetMaster => BootRestartMaster
    case ItemVersion => BootVersion
    case ItemRunApp => BootRunApp
    case ItemEraseFlash => BootErase
    case ItemWriteFlash => BootWriteFlash
    case ItemSetAddr => BootSetPage
    case ItemMemDump => BootMemDump
    case ItemEeprom => if c == 'o' then BootReadEeprom else BootWriteEeprom
  }

  /** Each key a bootloader-menu entry names selects the command that entry announces,
      under the same build condition. */
  lemma MenuKeysSelectTheirCommand(cfg: Config, sts: StatusRecord, item: MenuItem, c: char)
    requires item in ShowMenu(cfg, false, sts).items && NamesKey(item, c)
    requires cfg.EepromCompiled() ==> cfg.ReadFlashCompiled()
    ensures Classify(cfg, false, c) == AnnouncedAction(item, c)
  {
    assert item == ItemMemDump ==> cfg.ReadFlashCompiled();
    assert item == ItemEeprom ==> cfg.EepromCompiled();
    KeySelectsAnnouncedCommand(cfg, item, c);
  }

  /** The key table against the menu text, for a build that compiles in the entry. */
  lemma KeySelectsAnnouncedCommand(cfg: Config, item: MenuItem, c: char)
    requires NamesKey(item, c)
    requires item == ItemMemDump || item == ItemEeprom ==> cfg.ReadFlashCompiled()
    requires item == ItemEeprom ==> cfg.EepromCompiled()
    ensures BootloaderAction(cfg, c) == AnnouncedAction(item, c)
  {
  }

  /** A build with EEPROM access (bit 0 of EXT_FEATURES) but without flash reading
      (bit 1 of FEATURES_CODE), and a device that reports EEPROM access. */
  const EepromOnlyBuild: Config := Config(0x54, 0, 1, 0, 1, 64, 8192, 511, 150, Some(0), Some(1))
  const EepromDevice: StatusRecord := StatusRecord(0x54, 1, 6, 0, 1, 0x1C00, 0xFFFF, 0xE1, 0x80)

  /** Without that condition the prompt can offer 'o/p' while the dispatcher answers
      "unknown": the menu tests EEPROM access alone, the dispatcher's cases sit inside
      the flash-reading `#if` as well. */
  lemma MenuCanOfferUnknownEeprom()
    ensures ItemEeprom in ShowMenu(EepromOnlyBuild, false, EepromDevice).items
    ensures Classify(EepromOnlyBuild, false, 'o') == BootUnknown
    ensures Classify(EepromOnlyBuild, false, 'p') == BootUnknown
  {
    EepromOnlyBuildGates();
    EepromOnlyBuildOffersEeprom();
  }

  lemma EepromOnlyBuildGates()
    ensures !EepromOnlyBuild.ReadFlashCompiled() && EepromOnlyBuild.EepromCompiled()
  {
    assert Pow2(0) == 1 && Pow2(1) == 2;
    assert BitSet(1, 0) && !BitSet(0, 1);
  }

  lemma EepromOnlyBuildOffersEeprom()
    ensures ItemEeprom in ShowMenu(EepromOnlyBuild, false, EepromDevice).items
  {
    EepromOnlyBuildGates();
    assert Pow2(0) == 1;
    assert BitSet(EepromDevice.extFeaturesCode, EepromOnlyBuild.eEepromAccess);
  }

  /** The outcome of the set-page-address command once a value has been entered. */
  datatype PageCheck =
    | PageAccepted       // the address is kept and `new_word` cleared
    | BootloaderUnknown  // the bootloader start is beyond the flash: nothing more is done
    | PageRejected       // the address is reset to 0x0000

  /** The checks of the 'b' command on an entered address, in the source's order.
      `bootloader_start - SPM_PAGESIZE` is computed in `int` and may be negative. */
  function CheckPageAddress(cfg: Config, bootloaderStart: U16, addr: U16): (c: PageCheck)
    ensures c == PageAccepted ==> addr + cfg.spmPageSize <= bootloaderStart <= cfg.mcuTotalMem
    ensures c == PageAccepted ==> addr != 0xFFFF
    ensures c == BootloaderUnknown <==> bootloaderStart > cfg.mcuTotalMem
  {
    if bootloaderStart > cfg.mcuTotalMem then BootloaderUnknown
    else if addr > bootloaderStart - cfg.spmPageSize || addr == 0xFFFF then PageRejected
    else PageAccepted
  }

  /** The highest page, the one that ends exactly where the bootloader starts, is
      accepted: the comparison is `>`, not `>=`. */
  lemma LastPageAccepted(cfg: Config, bootloaderStart: U16)
    requires cfg.spmPageSize <= bootloaderStart <= cfg.mcuTotalMem
    requires bootloaderStart - cfg.spmPageSize != 0xFFFF
    ensures CheckPageAddress(cfg, bootloaderStart, bootloaderStart - cfg.spmPageSize) == PageAccepted
  {
    FittingPageAccepted(cfg, bootloaderStart, bootloaderStart - cfg.spmPageSize);
  }

  /** Conversely, every page that fits below the bootloader start is accepted. */
  lemma FittingPageAccepted(cfg: Config, bootloaderStart: U16, addr: U16)
    requires addr + cfg.spmPageSize <= bootloaderStart <= cfg.mcuTotalMem && addr != 0xFFFF
    ensures CheckPageAddress(cfg, bootloaderStart, addr) == PageAccepted
  {
  }
}
