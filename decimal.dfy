/** Decimal rendering of numbers (`String(n)`, `n.toString()`) and the record ids
    that the pages build from it. */
module Decimal {

  predicate IsDigit(c: char)
  {
    '0' <= c <= '9'
  }

  function DigitChar(d: nat): char
    requires d < 10
  {
    ('0' as int + d) as char
  }

  function DigitValue(c: char): nat
  {
    if IsDigit(c) then c as int - '0' as int else 0
  }

  /** `String(n)` for a non-negative integer: its digits, most significant first,
      with no leading zero. */
  function NatToString(n: nat): (r: string)
    ensures |r| >= 1
    ensures forall i :: 0 <= i < |r| ==> IsDigit(r[i])
    ensures r[0] == '0' ==> n == 0
    decreases n
  {
    if n < 10 then [DigitChar(n)] else NatToString(n / 10) + [DigitChar(n % 10)]
  }

  /** Reads a string of digits back as a number. */
  function ParseNat(s: string): nat
    decreases |s|
  {
    if s == [] then 0 else 10 * ParseNat(s[..|s| - 1]) + DigitValue(s[|s| - 1])
  }

  lemma {:induction false} ParseNatToString(n: nat)
    ensures ParseNat(NatToString(n)) == n
    decreases n
  {
    if n >= 10 {
      var s := NatToString(n);
      assert s[..|s| - 1] == NatToString(n / 10);
      ParseNatToString(n / 10);
    }
  }

  /** Distinct numbers render as distinct strings. */
  lemma NatToStringInjective(m: nat, n: nat)
    ensures NatToString(m) == NatToString(n) ==> m == n
  {
    ParseNatToString(m);
    ParseNatToString(n);
  }

  /** `n.toString()` for an integer: a minus sign before the digits of a negative one. */
  function IntToString(i: int): (r: string)
    ensures ParseInt(r) == i
  {
    if i < 0 then
      assert ("-" + NatToString(-i))[1..] == NatToString(-i);
      ParseNatToString(-i);
      "-" + NatToString(-i)
    else
      ParseNatToString(i);
      NatToString(i)
  }

  function ParseInt(s: string): int
  {
    if |s| > 0 && s[0] == '-' then -(ParseNat(s[1..]) as int) else ParseNat(s)
  }

  /** The ids of a list whose records were numbered in order: "1", "2", ..., the way
      the sample data is written and `String(list.length + 1)` extends it. */
  ghost predicate SequentialIds(ids: seq<string>)
  {
    forall i :: 0 <= i < |ids| ==> ids[i] == NatToString(i + 1)
  }

  /** In such a list an id names exactly one position. */
  lemma SequentialIdsDistinct(ids: seq<string>, j: nat, k: nat)
    requires SequentialIds(ids) && j < |ids| && k < |ids|
    ensures ids[j] == ids[k] <==> j == k
  {
    NatToStringInjective(j + 1, k + 1);
  }

  /** The id `String(length + 1)` is not yet taken, and appending it keeps the numbering. */
  lemma NextIdIsFresh(ids: seq<string>)
    requires SequentialIds(ids)
    ensures NatToString(|ids| + 1) !in ids
    ensures SequentialIds(ids + [NatToString(|ids| + 1)])
  {
    forall i | 0 <= i < |ids|
      ensures ids[i] != NatToString(|ids| + 1)
    {
      NatToStringInjective(i + 1, |ids| + 1);
    }
    var extended := ids + [NatToString(|ids| + 1)];
    forall i | 0 <= i < |extended|
      ensures extended[i] == NatToString(i + 1)
    {
      if i < |ids| {
        assert extended[i] == ids[i];
      }
    }
  }
}
