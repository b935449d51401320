/** The decimal text that time stamps are stored as: `u64::to_string` and `str::parse::<u64>`. */
module Decimal {
  import opened Options

  const U64_MAX: nat := 0xFFFF_FFFF_FFFF_FFFF

  type U64 = n: nat | n <= U64_MAX

  function Print(n: nat): (s: string)
    ensures s != [] && forall c :: c in s ==> '0' <= c <= '9'
  {
    if n < 10 then ['0' + n as char] else Print(n / 10) + ['0' + (n % 10) as char]
  }

  function ParseDigits(acc: U64, s: string): Option<U64>
    decreases |s|
  {
    if s == [] then Some(acc)
    else if !('0' <= s[0] <= '9') then None
    else
      var next := 10 * acc + (s[0] - '0') as nat;
      if next > U64_MAX then None else ParseDigits(next, s[1..])
  }

  /** One leading plus sign is allowed, no digits at all are not. */
  function Parse(s: string): Option<U64> {
    var digits := if s != [] && s[0] == '+' then s[1..] else s;
    if digits == [] then None else ParseDigits(0, digits)
  }

  lemma {:induction false} ParseSnoc(acc: U64, s: string, c: char)
    requires '0' <= c <= '9'
    ensures ParseDigits(acc, s + [c]) ==
      match ParseDigits(acc, s)
      case None => None
      case Some(v) => var w := 10 * v + (c - '0') as nat; if w > U64_MAX then None else Some(w)
    decreases |s|
  {
    if s == [] {
      assert s + [c] == [c];
    } else {
      assert (s + [c])[1..] == s[1..] + [c];
      if '0' <= s[0] <= '9' {
        var next := 10 * acc + (s[0] - '0') as nat;
        if next <= U64_MAX {
          ParseSnoc(next, s[1..], c);
        }
      }
    }
  }

  lemma {:induction false} ParseDigitsOfPrint(n: U64)
    ensures ParseDigits(0, Print(n)) == Some(n)
  {
    if n < 10 {
      assert Print(n)[1..] == [];
    } else {
      ParseDigitsOfPrint(n / 10);
      ParseSnoc(0, Print(n / 10), '0' + (n % 10) as char);
    }
  }

  /** What is printed is read back, over the whole range of the type. */
  lemma {:induction false} RoundTrip(n: U64)
    ensures Parse(Print(n)) == Some(n)
  {
    ParseDigitsOfPrint(n);
  }

  lemma {:induction false} ParseDigitsOfAny(n: nat)
    ensures ParseDigits(0, Print(n)) == if n <= U64_MAX then Some(n) else None
  {
    if n < 10 {
      assert Print(n)[1..] == [];
    } else {
      ParseDigitsOfAny(n / 10);
      ParseSnocAny(0, Print(n / 10), '0' + (n % 10) as char);
    }
  }

  lemma {:induction false} ParseSnocAny(acc: U64, s: string, c: char)
    requires '0' <= c <= '9'
    ensures ParseDigits(acc, s).None? ==> ParseDigits(acc, s + [c]).None?
    ensures ParseDigits(acc, s).Some? ==>
      var w := 10 * ParseDigits(acc, s).value + (c - '0') as nat;
      ParseDigits(acc, s + [c]) == if w > U64_MAX then None else Some(w)
  {
    ParseSnoc(acc, s, c);
  }

  /** What is too large for the type is refused, a plus sign in front is passed over, and nothing else but
      digits is read. */
  lemma {:induction false} ParsesExactly(n: nat, rest: string)
    ensures Parse(Print(n)) == if n <= 0xFFFF_FFFF_FFFF_FFFF then Some(n) else None
    ensures Parse("+" + Print(n)) == Parse(Print(n))
    ensures Parse("") == None && Parse("+") == None
    ensures rest != "" && rest[0] != '+' && !('0' <= rest[0] <= '9') ==> Parse(rest) == None
  {
    ParseDigitsOfAny(n);
    assert ("+" + Print(n))[1..] == Print(n) && Print(n)[0] in Print(n);
    assert "+"[1..] == "";
  }
}
