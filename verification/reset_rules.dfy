/** Key codes, key types and the five key sequences of the reset recogniser. */
module ResetRules {

  const KET_KEYDOWN := 0x8000
  const KET_KEYUP := 0x8100

  const KED_RF_POWER := 0x7F
  const KED_POWER := 0x80
  const KED_ARROWDOWN := 0x82
  const KED_ARROWLEFT := 0x83
  const KED_ARROWRIGHT := 0x84
  const KED_SELECT := 0x85
  const KED_OK := 0xA9
  const KED_MENU := 0xC0
  const KED_FACTORY := 0xD6
  const KED_UNDEFINEDKEY := 0xFE
  const KEY_NULL := 0

  const INITIAL_TIME_OUT_VALUE := 10000
  const KEY_COMBINATION_TIMEOUT := 2000
  const POWER_KEY_HOLD_TIME_FOR_REBOOT := 10000
  const POWER_KEY_HOLD_TIME_FOR_RESET := 2000

  /** The five reset modes, in the order in which every key is offered to them. */
  type Mode = m: int | 0 <= m < MAX_RESET_MODE_COUNT
  const MAX_RESET_MODE_COUNT := 5
  const COLD_FACTORY: Mode := 0
  const FACTORY: Mode := 1
  const WARE_HOUSE: Mode := 2
  const CUSTOMER: Mode := 3
  const PERSONALITY: Mode := 4

  /** One row of a key sequence; the last row of each sequence is the KEY_NULL terminator. */
  datatype KeyState = KeyState(key: int, keyMode: int, validTime: int)

  function Up(key: int, validTime: int): KeyState { KeyState(key, KET_KEYUP, validTime) }

  const TERMINATOR := KeyState(KEY_NULL, 0, 0)

  /** The number of keys of a sequence, which is also the index of its terminator. */
  function Length(m: Mode): nat {
    if m == COLD_FACTORY || m == FACTORY then 6 else if m == CUSTOMER then 3 else 5
  }

  const COLD_FACTORY_SEQ := [
    Up(KED_POWER, 0), Up(KED_OK, 2000), Up(KED_ARROWRIGHT, 2000), Up(KED_MENU, 2000),
    Up(KED_ARROWRIGHT, 2000), Up(KED_POWER, 0), TERMINATOR]
  const FACTORY_SEQ := [
    Up(KED_POWER, 0), Up(KED_OK, 2000), Up(KED_ARROWRIGHT, 2000), Up(KED_MENU, 2000),
    Up(KED_ARROWLEFT, 2000), Up(KED_POWER, 0), TERMINATOR]
  const WARE_HOUSE_SEQ := [
    Up(KED_POWER, 0), Up(KED_OK, 2000), Up(KED_ARROWRIGHT, 2000), Up(KED_ARROWDOWN, 2000),
    Up(KED_POWER, 0), TERMINATOR]
  const CUSTOMER_SEQ := [
    Up(KED_POWER, 0), Up(KED_OK, 2000), Up(KED_UNDEFINEDKEY, 0), TERMINATOR]
  const PERSONALITY_SEQ := [
    Up(KED_POWER, 0), Up(KED_OK, 2000), Up(KED_ARROWLEFT, 2000), Up(KED_ARROWDOWN, 2000),
    Up(KED_POWER, 0), TERMINATOR]

  const RULES := [COLD_FACTORY_SEQ, FACTORY_SEQ, WARE_HOUSE_SEQ, CUSTOMER_SEQ, PERSONALITY_SEQ]

  function Rule(m: Mode): (r: seq<KeyState>)
    ensures |r| == Length(m) + 1
  {
    RULES[m]
  }

  /** What the recogniser relies on in the tables: every sequence starts POWER, OK; POWER occurs
      again only as a last key; exactly the keys between first and last restart the timer. */
  lemma RuleShape(m: Mode)
    ensures Rule(m)[0] == Up(KED_POWER, 0) && Rule(m)[1] == Up(KED_OK, KEY_COMBINATION_TIMEOUT)
    ensures forall j :: 0 <= j < Length(m) ==>
              && Rule(m)[j].keyMode == KET_KEYUP && Rule(m)[j].key != KEY_NULL
              && (Rule(m)[j].key == KED_POWER ==> j == 0 || j == Length(m) - 1)
              && Rule(m)[j].validTime == (if 0 < j < Length(m) - 1 then KEY_COMBINATION_TIMEOUT else 0)
    ensures Rule(m)[Length(m)] == TERMINATOR
  {
  }

  const KEY_VARIANTS: seq<(int, int)> := [(KED_POWER, KED_RF_POWER), (KED_OK, KED_SELECT)]

  /** The key a remote variant stands for. */
  function Translate(code: int): int {
    if code == KED_RF_POWER then KED_POWER else if code == KED_SELECT then KED_OK else code
  }

  predicate PowerFamily(code: int) {
    code == KED_POWER || code == KED_RF_POWER || code == KED_FACTORY
  }
}
