/** Fixed-width integers, the C operators the console applies to them,
    and the compile-time configuration of the Timonel I2C master console. */
module Common {

  /** uint8_t, uint16_t and the 32-bit unsigned long of the ESP32. */
  type U8 = x: int | 0 <= x < 0x100
  type U16 = x: int | 0 <= x < 0x1_0000
  type U32 = x: int | 0 <= x < 0x1_0000_0000

  datatype Option<T> = None | Some(value: T)

  function Min(a: int, b: int): int { if a <= b then a else b }

  /** 2 to the power n. */
  function Pow2(n: nat): (p: nat)
    ensures p >= 1
  {
    if n == 0 then 1 else 2 * Pow2(n - 1)
  }

  /** C's `(x >> n) & true`: `true` is promoted to 1, so this tests bit n of x. */
  predicate BitSet(x: nat, n: nat)
  {
    (x / Pow2(n)) % 2 == 1
  }

  /** C's `~x` on a two's complement `int`. */
  function BitNot(x: int): int { -x - 1 }

  /** Conversion of an `int` to `uint16_t`: the low 16 bits are kept. */
  function ToU16(x: int): U16 { x % 0x1_0000 }

  /** Conversion of an `int` to `uint8_t`: the low 8 bits are kept. */
  function ToU8(x: int): U8 { x % 0x100 }

  /** C's `x & 0xFFF` on a two's complement `int`. The mask keeps the low 12 bits,
      which is the Euclidean remainder modulo 4096, also when x is negative. */
  function Low12(x: int): int { x % 0x1000 }

  /** The constants of the build: the master's header and the bootloader's feature codes. */
  datatype Config = Config(
    tSignature: U8,            // T_SIGNATURE: the signature byte Timonel reports
    fCmdSetPgAddr: nat,        // F_CMD_SETPGADDR: bit of features_code
    fCmdReadFlash: nat,        // F_CMD_READFLASH: bit of features_code
    eEepromAccess: nat,        // E_EEPROM_ACCESS: bit of ext_features_code
    eAutoClkTweak: nat,        // E_AUTO_CLK_TWEAK: bit of ext_features_code
    spmPageSize: nat,          // SPM_PAGESIZE: flash page size in bytes
    mcuTotalMem: nat,          // MCU_TOTAL_MEM: flash size in bytes
    eepromTop: nat,            // EEPROM_TOP: highest EEPROM address
    rotationDly: U32,          // ROTATION_DLY: spinner period in milliseconds
    featuresCode: Option<U8>,  // FEATURES_CODE, when the build defines it
    extFeatures: Option<U8>)   // EXT_FEATURES, when the build defines it
  {
    /** `#if (defined FEATURES_CODE) && ((FEATURES_CODE >> F_CMD_SETPGADDR) & true)` */
    predicate SetPgAddrCompiled()
    {
      featuresCode.Some? && BitSet(featuresCode.value, fCmdSetPgAddr)
    }

    /** `#if (defined FEATURES_CODE) && ((FEATURES_CODE >> F_CMD_READFLASH) & true)` */
    predicate ReadFlashCompiled()
    {
      featuresCode.Some? && BitSet(featuresCode.value, fCmdReadFlash)
    }

    /** `#if (defined EXT_FEATURES) && ((EXT_FEATURES >> E_EEPROM_ACCESS) & true)` */
    predicate EepromCompiled()
    {
      extFeatures.Some? && BitSet(extFeatures.value, eEepromAccess)
    }
  }
}
