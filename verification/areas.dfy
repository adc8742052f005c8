/** The driver's own table of memory area codes. */
module Areas {
  import opened Bytes

  const CIO_BIT: byte := 0x30
  const AR_BIT: byte := 0x31
  const WR_BIT: byte := 0x32
  const HR_BIT: byte := 0x33
  const PV_BIT: byte := 0x35
  const DM_BIT: byte := 0x02
  const TASK_BIT: byte := 0x06
  const FLAG_BIT: byte := 0x0b
  const EM0_BIT: byte := 0x20
  const EM15_BIT: byte := 0x2f

  const CIO_WORD: byte := 0xb0
  const WR_WORD: byte := 0xb1
  const HR_WORD: byte := 0xb2
  const AR_WORD: byte := 0xb3
  const PV_WORD: byte := 0xb5
  const DM_WORD: byte := 0x82
  const TIMER_PV: byte := 0x89
  const COUNTER_PV: byte := 0x89
  const EM0_WORD: byte := 0xa0
  const EM15_WORD: byte := 0xaf

  predicate IsWordArea(area: byte) {
    || area in {CIO_WORD, WR_WORD, HR_WORD, AR_WORD, DM_WORD, PV_WORD, TIMER_PV}
    || EM0_WORD <= area <= EM15_WORD
  }

  predicate IsBitArea(area: byte) {
    || area in {CIO_BIT, WR_BIT, HR_BIT, AR_BIT, DM_BIT, PV_BIT, FLAG_BIT, TASK_BIT}
    || EM0_BIT <= area <= EM15_BIT
  }

  /** The bit-access code of a word area; timers and counters have none. */
  function BitAreaCode(word: byte): (r: Option<byte>)
    ensures r.Some? ==> IsBitArea(r.value) && !IsWordArea(r.value)
    ensures r.None? && IsWordArea(word) ==> word == TIMER_PV
  {
    if word == CIO_WORD then Some(CIO_BIT)
    else if word == WR_WORD then Some(WR_BIT)
    else if word == HR_WORD then Some(HR_BIT)
    else if word == AR_WORD then Some(AR_BIT)
    else if word == DM_WORD then Some(DM_BIT)
    else if word == PV_WORD then Some(PV_BIT)
    else if EM0_WORD <= word <= EM15_WORD then Some(EM0_BIT + (word - EM0_WORD))
    else None
  }

  /** The code a bit access goes out with: the bit code, or the word code when there is none. */
  function BitAccessCode(word: byte): (r: byte) {
    match BitAreaCode(word)
    case Some(b) => b
    case None => word
  }
}
