/** Tool-call ids on the ACP wire: the turn number, a colon, and the raw id. */
module WireIds {

  function Natural(n: nat): (s: string)
    ensures s != [] && forall i | 0 <= i < |s| :: '0' <= s[i] <= '9'
  {
    var digit := '0' + (n % 10) as char;
    if n < 10 then [digit] else Natural(n / 10) + [digit]
  }

  /** `String(n)`. */
  function Decimal(n: int): (s: string)
    ensures forall i | 0 <= i < |s| :: s[i] != ':'
  {
    if n < 0 then "-" + Natural(-n) else Natural(n)
  }

  /** `acpToolCallId`. */
  function AcpToolCallId(turnId: int, toolCallId: string): string {
    Decimal(turnId) + ":" + toolCallId
  }

  /** The number that decimal digits stand for. */
  function ValueOf(digits: string): int
    requires forall i | 0 <= i < |digits| :: '0' <= digits[i] <= '9'
  {
    if digits == [] then 0
    else 10 * ValueOf(digits[..|digits| - 1]) + (digits[|digits| - 1] as int - '0' as int)
  }

  /** A number is written in decimal, without leading zeros. */
  lemma {:induction false} NaturalIsDecimal(n: nat)
    ensures ValueOf(Natural(n)) == n && (Natural(n)[0] == '0' ==> n == 0)
  {
    var digits := Natural(n);
    if n < 10 {
      assert digits[..0] == [];
    } else {
      NaturalIsDecimal(n / 10);
      assert digits[..|digits| - 1] == Natural(n / 10);
    }
  }

  lemma {:induction false} NaturalInjective(m: nat, n: nat)
    requires Natural(m) == Natural(n)
    ensures m == n
  {
    var s, t := Natural(m), Natural(n);
    assert s[|s| - 1] == t[|t| - 1];
    if m >= 10 && n >= 10 {
      assert Natural(m / 10) == s[..|s| - 1] == t[..|t| - 1] == Natural(n / 10);
      NaturalInjective(m / 10, n / 10);
    }
  }

  lemma DecimalInjective(m: int, n: int)
    requires Decimal(m) == Decimal(n)
    ensures m == n
  {
    var s, t := Decimal(m), Decimal(n);
    assert s[0] == t[0];
    assert s[1..] == t[1..];
    NaturalInjective(if m < 0 then -m else m, if n < 0 then -n else n);
  }

  /** Equal wire ids come from the same turn and the same raw id, even if the raw id holds colons. */
  lemma AcpToolCallIdInjective(turnA: int, idA: string, turnB: int, idB: string)
    requires AcpToolCallId(turnA, idA) == AcpToolCallId(turnB, idB)
    ensures turnA == turnB && idA == idB
  {
    var a, b := Decimal(turnA), Decimal(turnB);
    var wire := AcpToolCallId(turnA, idA);
    assert wire[|a|] == ':' && wire[|b|] == ':';
    assert forall i | 0 <= i < |a| :: a[i] == wire[i];
    assert forall i | 0 <= i < |b| :: b[i] == wire[i];
    assert a == wire[..|a|] == b;
    assert idA == wire[|a| + 1..] == idB;
    DecimalInjective(turnA, turnB);
  }
}
