/** Register offsets and bits of the TNT4882C (include/gpib/tnt4882.h), the driver's status
    codes, and the multiline command bytes of IEEE Std 488.1. */
module TntRegs {

  // Offsets. A read and a write at one offset may reach different registers.
  const REG_DIR := 0x00
  const REG_ISR1 := 0x02
  const REG_IMR1 := 0x02
  const REG_ISR2 := 0x04
  const REG_IMR2 := 0x04
  const REG_ACCWR := 0x05
  const REG_SPMR := 0x06
  const REG_SPSR := 0x06
  const REG_AUXCR := 0x06
  const REG_INTRT := 0x07
  const REG_ADSR := 0x08
  const REG_ADMR := 0x08
  const REG_CNT2 := 0x09
  const REG_AUXMR := 0x0A
  const REG_CPTR := 0x0A
  const REG_SWAPPED_AUXCR := 0x0A
  const REG_CNT3 := 0x0B
  const REG_ADR := 0x0C
  const REG_ADR0 := 0x0C
  const REG_HSSEL := 0x0D
  const REG_EOSR := 0x0E
  const REG_ADR1 := 0x0E
  const REG_CFG := 0x10
  const REG_STS1 := 0x10
  const REG_IMR3 := 0x12
  const REG_CNT0 := 0x14
  const REG_CNT1 := 0x16
  const REG_KEYREG := 0x17
  const REG_CSR := 0x17
  const REG_FIFOB := 0x18
  const REG_CCR := 0x1A
  const REG_ISR3 := 0x1A
  const REG_SASR := 0x1B
  const REG_CMDR := 0x1C
  const REG_STS2 := 0x1C
  const REG_IMR0 := 0x1D
  const REG_ISR0 := 0x1D
  const REG_TIMER := 0x1E
  const REG_BSR := 0x1F

  // ISR1
  const HR_ERR: bv8 := 0x04
  const HR_END: bv8 := 0x10
  // ADSR
  const HR_TA: bv8 := 0x02
  const HR_LA: bv8 := 0x04
  const HR_NATN: bv8 := 0x40
  const HR_CIC: bv8 := 0x80
  // ADMR and ADR
  const HR_ADM0: bv8 := 0x01
  const HR_ADM1: bv8 := 0x02
  const HR_TRM0: bv8 := 0x10
  const HR_TRM1: bv8 := 0x20
  const HR_DL: bv8 := 0x20
  const HR_DT: bv8 := 0x40
  const HR_ARS: bv8 := 0x80
  // Auxiliary commands and hidden registers, all written through AUXMR
  const AUX_PON: bv8 := 0x00
  const AUX_CR: bv8 := 0x02
  const AUX_FH: bv8 := 0x03
  const AUX_GTS: bv8 := 0x10
  const AUX_TCA: bv8 := 0x11
  const AUX_TCS: bv8 := 0x12
  const AUX_DSC: bv8 := 0x14
  const AUX_CIFC: bv8 := 0x16
  const AUX_CREN: bv8 := 0x17
  const AUX_SIFC: bv8 := 0x1E
  const AUX_SREN: bv8 := 0x1F
  const AUX_PAGEIN: bv8 := 0x50
  const AUX_HLDI: bv8 := 0x51
  const AUX_CLEAR_END: bv8 := 0x55
  const AUX_7210: bv8 := 0x99
  const AUX_ICR: bv8 := 0x20
  const AUX_AUXRG: bv8 := 0x40
  const AUX_PPR: bv8 := 0x60
  const AUX_AUXRA: bv8 := 0x80
  const AUX_AUXRB: bv8 := 0xA0
  const AUX_AUXRE: bv8 := 0xC0
  const AUX_AUXRI: bv8 := 0xE0
  // AUXRA
  const HR_HLDA: bv8 := 0x01
  const HR_HLDE: bv8 := 0x02
  const HR_REOS: bv8 := 0x04
  const HR_XEOS: bv8 := 0x08
  const HR_BIN: bv8 := 0x10
  // AUXRB, AUXRG, AUXRI, PPR
  const HR_TRI: bv8 := 0x04
  const HR_SISB: bv8 := 0x01
  const HR_USTD: bv8 := 0x08
  const HR_PPU: bv8 := 0x10
  // CFG
  const CFG_COMMAND: bv8 := 0x80
  const CFG_IN: bv8 := 0x20
  const CFG_CCEN: bv8 := 0x08
  // CMDR
  const CMD_CLRSC: bv8 := 0x02
  const CMD_SETSC: bv8 := 0x03
  const CMD_GO: bv8 := 0x04
  const CMD_STOP: bv8 := 0x08
  const CMD_RESET_FIFO: bv8 := 0x10
  const CMD_SOFT_RESET: bv8 := 0x22
  // HSSEL, IMR0, KEYREG
  const HSSEL_ONE_CHIP: bv8 := 0x01
  const HSSEL_NODMA: bv8 := 0x10
  const IMR0_ALWAYS: bv8 := 0x80
  const KEY_MSTD: bv8 := 0x20
  // ISR0, ISR3, STS1, STS2, SASR, BSR
  const ISR0_SYNC: bv8 := 0x01
  const ISR3_DONE: bv8 := 0x01
  const ISR3_NEF: bv8 := 0x04
  const ISR3_NFF: bv8 := 0x08
  const ISR3_STOP: bv8 := 0x10
  const S_DONE: bv8 := 0x80
  const S_SC: bv8 := 0x40
  const S_IN: bv8 := 0x20
  const S_STOP: bv8 := 0x08
  const S_HALT: bv8 := 0x02
  const S_GSYNC: bv8 := 0x01
  const AFFN: bv8 := 0x08
  const AEFN: bv8 := 0x04
  const BFFN: bv8 := 0x02
  const BEFN: bv8 := 0x01
  const ANHS2: bv8 := 0x10
  const ANHS1: bv8 := 0x20
  const AEHS: bv8 := 0x40
  const BSR_REN: bv8 := 0x01
  const BSR_IFC: bv8 := 0x02
  const BSR_SRQ: bv8 := 0x04
  const BSR_NRFD: bv8 := 0x10
  const BSR_ATN: bv8 := 0x80
  const CSR_VERSION_TNT4882: bv8 := 0x30

  // The reset signature that tnt_probe looks for
  const RESET_STS1: bv8 := 0x8B
  const RESET_STS2: bv8 := 0x9A
  const RESET_ISR3: bv8 := 0x19
  const RESET_ADSR: bv8 := 0x40

  const FIFO_DEPTH := 16
  const MAX_TRANSFER := 0x00FF_FFFF
  const TCA_SPIN_US := 100
  const IFC_PULSE_US := 200

  // EOS flags of tnt_set_eos
  const EOS_REOS: bv8 := 0x01
  const EOS_BIN: bv8 := 0x02
  const EOS_XEOS: bv8 := 0x04

  datatype Status = OK | ETIMEOUT | ENOLISTENER | ENOTCIC | EIO | EINVAL | ENOTSC

  // Multiline command bytes
  const GTL: bv8 := 0x01
  const SDC: bv8 := 0x04
  const GET: bv8 := 0x08
  const LLO: bv8 := 0x11
  const DCL: bv8 := 0x14
  const SPE: bv8 := 0x18
  const SPD: bv8 := 0x19
  const UNL: bv8 := 0x3F
  const UNT: bv8 := 0x5F

  /** The three bits of a value written to AUXMR that select the register. */
  function Selector(v: bv8): bv8 { v & 0xE0 }

  function Addr(b: bv8): bv8 { b & 0x1F }

  predicate IsLad(b: bv8) { b & 0x60 == 0x20 && Addr(b) != 0x1F }

  predicate IsTad(b: bv8) { b & 0x60 == 0x40 && Addr(b) != 0x1F }

  function Lad(pad: bv8): bv8 { 0x20 | (pad & 0x1F) }

  function Tad(pad: bv8): bv8 { 0x40 | (pad & 0x1F) }

  function Sad(sad: bv8): bv8 { 0x60 | (sad & 0x1F) }
}
