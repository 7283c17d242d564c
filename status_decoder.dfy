/** The decoding of the status record a Timonel device reports (`PrintStatus`):
    whether the device runs the bootloader or the user application, and, for the
    bootloader, the fields shown to the operator, among them the trampoline address
    derived from the application start. */
module StatusDecoder {
  import opened Common

  /** The fields of `Timonel::Status` that the console reads. */
  datatype StatusRecord = StatusRecord(
    signature: U8,
    versionMajor: U8,
    versionMinor: U8,
    featuresCode: U8,
    extFeaturesCode: U8,
    bootloaderStart: U16,
    applicationStart: U16,
    lowFuseSetting: U8,
    oscillatorCal: U8)

  /** The nickname printed after the version number. */
  datatype Nick = PreRelease | Sandra | UnknownNick

  /** The application start line: the "Not Set" sentinel, or the address and its trampoline. */
  datatype AppStart = NotSet | StartsAt(address: U16, trampoline: U16)

  /** The clock line: "(Auto)" or "(Fixed)". */
  datatype ClockTweak = Auto | Fixed

  /** What `PrintStatus` shows, without the text around it. */
  datatype Report =
    | BootloaderReport(
        major: U8, minor: U8, nick: Nick, twiAddress: U8,
        bootloaderStart: U16, app: AppStart,
        featuresCode: U8, extFeaturesCode: U8, clock: ClockTweak,
        lowFuse: U8, oscCal: U8)
    | UserAppReport(twiAddress: U8)

  /** The application start address a device reports when no application is loaded. */
  const NotSetSentinel: U16 := 0xFFFF

  /** `((app_start_lsb << 8) | app_start_msb) & 0xFFF`: the application start with its
      two bytes swapped, cut to 12 bits. The shifted bytes do not overlap, so `|` adds them. */
  function SwappedLow12(appStart: U16): (m: int)
    ensures 0 <= m < 0x1000
  {
    var msb := (appStart / 0x100) % 0x100;
    var lsb := appStart % 0x100;
    Low12(lsb * 0x100 + msb)
  }

  /** The trampoline address as the console computes it. `~` acts on an `int` and the
      sum is stored in a `uint16_t`; the subtraction then happens in `int`, may go
      negative, and is masked to 12 bits before the shift. */
  function Trampoline(bootloaderStart: U16, appStart: U16): (t: U16)
    ensures t % 2 == 0 && t <= 0x1FFE
  {
    var negated := ToU16(BitNot(SwappedLow12(appStart)) + 1);
    Low12(bootloaderStart / 2 - negated) * 2
  }

  /** The trampoline is the byte-swapped 12-bit field added to the bootloader's word
      address, modulo 4096 words, and turned back into a byte address. */
  lemma TrampolineFormula(bootloaderStart: U16, appStart: U16)
    ensures Trampoline(bootloaderStart, appStart)
         == ((bootloaderStart / 2 + SwappedLow12(appStart)) % 0x1000) * 2
  {
    var m := SwappedLow12(appStart);
    var w := bootloaderStart / 2;
    var negated := ToU16(BitNot(m) + 1);
    if m == 0 {
      assert negated == 0;
    } else {
      assert negated == 0x1_0000 - m;
      LowTwelveIgnoresWrap(w + m);
    }
  }

  /** Subtracting 2^16 does not change the low 12 bits. */
  lemma LowTwelveIgnoresWrap(x: int)
    ensures Low12(x - 0x1_0000) == Low12(x)
  {
    var q, r := x / 0x1000, x % 0x1000;
    assert x - 0x1_0000 == (q - 16) * 0x1000 + r;
  }

  /** A 12-bit two's complement field read as a signed number. */
  function SignExtend12(field: int): int
    requires 0 <= field < 0x1000
  {
    if field < 0x800 then field else field - 0x1000
  }

  /** The byte address reached by an AVR relative jump whose 12-bit offset field is
      `field`, placed at word address `wordAddress` of a 4096-word flash, where the
      program counter wraps around. */
  function RelativeJumpTarget(wordAddress: int, field: int): (target: int)
    requires 0 <= field < 0x1000
    ensures 0 <= target < 0x2000 && target % 2 == 0
  {
    ((wordAddress + 1 + SignExtend12(field)) % 0x1000) * 2
  }

  /** The trampoline is where a relative jump placed in the flash word just below the
      bootloader lands, when its offset field is the byte-swapped application start. */
  lemma TrampolineIsJumpTarget(bootloaderStart: U16, appStart: U16)
    ensures Trampoline(bootloaderStart, appStart)
         == RelativeJumpTarget(bootloaderStart / 2 - 1, SwappedLow12(appStart))
  {
    TrampolineFormula(bootloaderStart, appStart);
    var m := SwappedLow12(appStart);
    var w := bootloaderStart / 2;
    assert w - 1 + 1 + SignExtend12(m) == if m < 0x800 then w + m else (w + m) - 0x1000;
    LowTwelveIgnoresPage(w + m);
  }

  /** Subtracting 2^12 does not change the low 12 bits. */
  lemma LowTwelveIgnoresPage(x: int)
    ensures Low12(x - 0x1000) == Low12(x)
  {
    var q, r := x / 0x1000, x % 0x1000;
    assert x - 0x1000 == (q - 1) * 0x1000 + r;
  }

  /** A record is a bootloader identity when it carries Timonel's signature and a
      version other than 0.0; otherwise the user application is answering. */
  predicate IsBootloaderIdentity(cfg: Config, s: StatusRecord)
  {
    s.signature == cfg.tSignature && (s.versionMajor != 0 || s.versionMinor != 0)
  }

  function MajorNick(major: U8): Nick
  {
    match major
    case 0 => PreRelease
    case 1 => Sandra
    case _ => UnknownNick
  }

  /** What `PrintStatus` shows for a status record read from the device at `twiAddress`. */
  function PrintStatus(cfg: Config, s: StatusRecord, twiAddress: U8): (r: Report)
    ensures r.BootloaderReport? <==> IsBootloaderIdentity(cfg, s)
    ensures r.UserAppReport? ==> r.twiAddress == twiAddress
    ensures r.BootloaderReport? ==>
              r.major == s.versionMajor && r.minor == s.versionMinor
              && (r.nick == PreRelease <==> s.versionMajor == 0)
              && (r.nick == Sandra <==> s.versionMajor == 1)
              && (r.app == NotSet <==> s.applicationStart == NotSetSentinel)
              && (r.app.StartsAt? ==>
                    r.app.address == s.applicationStart
                    && r.app.trampoline
                       == ((s.bootloaderStart / 2 + SwappedLow12(s.applicationStart)) % 0x1000) * 2)
              && (r.clock == Auto <==> BitSet(s.extFeaturesCode, cfg.eAutoClkTweak))
              && r.bootloaderStart == s.bootloaderStart && r.twiAddress == twiAddress
              && r.featuresCode == s.featuresCode && r.extFeaturesCode == s.extFeaturesCode
              && r.lowFuse == s.lowFuseSetting && r.oscCal == s.oscillatorCal
  {
    if IsBootloaderIdentity(cfg, s) then
      var app :=
        if s.applicationStart != NotSetSentinel then
          TrampolineFormula(s.bootloaderStart, s.applicationStart);
          StartsAt(s.applicationStart, Trampoline(s.bootloaderStart, s.applicationStart))
        else NotSet;
      var clock := if BitSet(s.extFeaturesCode, cfg.eAutoClkTweak) then Auto else Fixed;
      BootloaderReport(
        s.versionMajor, s.versionMinor, MajorNick(s.versionMajor), twiAddress,
        s.bootloaderStart, app, s.featuresCode, s.extFeaturesCode, clock,
        s.lowFuseSetting, s.oscillatorCal)
    else
      UserAppReport(twiAddress)
  }
}
