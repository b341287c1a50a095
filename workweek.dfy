/**
  The workweek: the set of weekday numbers (1 = Monday ... 7 = Sunday) that
  count as workdays, parsed from a comma-separated list such as `1,2,3,4,5`.
 */
module Workweek {
  import opened Options
  import opened Errors
  import opened Text
  import opened Workdays

  const U32Max: int := 4294967295

  /** The digits of a token once an optional leading `+` is dropped. */
  function UnsignedDigits(t: string): string {
    if |t| > 0 && t[0] == '+' then t[1..] else t
  }

  /**
    Rust's `u32` parsing: an optional `+`, then one or more ASCII digits
    (leading zeros allowed), at most 2^32 - 1; anything else fails.
   */
  function ParseU32(t: string): (r: Option<int>)
    ensures r.Some? ==> 0 <= r.value <= U32Max
  {
    var ds := UnsignedDigits(t);
    if |ds| > 0 && AllDigits(ds) && DecimalValue(ds) <= U32Max then Some(DecimalValue(ds))
    else None
  }

  /** Every u32 written in decimal, with or without a `+`, parses back to itself. */
  lemma ParseU32Decimal(n: nat)
    requires n <= U32Max
    ensures ParseU32(Decimal(n)) == Some(n)
    ensures ParseU32("+" + Decimal(n)) == Some(n)
  {
    DecimalRoundTrip(n);
    assert ("+" + Decimal(n))[1..] == Decimal(n);
  }

  /** The empty token, and a lone sign, are not numbers. */
  lemma ParseU32RejectsEmpty()
    ensures ParseU32("") == None && ParseU32("+") == None && ParseU32("-") == None
  {
  }

  /** A token the workweek accepts: a u32 in [1, 7]. */
  predicate IsWorkdayToken(t: string) {
    ParseU32(t).Some? && 1 <= ParseU32(t).value <= 7
  }

  /** The error a rejected token produces: not a number, or a number out of range. */
  function TokenError(t: string): Error
    requires !IsWorkdayToken(t)
  {
    if ParseU32(t).None? then InvalidWorkday(t) else WorkdayOutOfRange(ParseU32(t).value)
  }

  /** The comma-separated tokens of a workweek list. */
  function Tokens(text: string): seq<string> {
    Split(text, ',')
  }

  /** The values of the accepted tokens: the workweek a list of tokens denotes. */
  function DaysOf(tokens: seq<string>): set<int> {
    set i | 0 <= i < |tokens| && IsWorkdayToken(tokens[i]) :: ParseU32(tokens[i]).value
  }

  /** Token `k` is the first one the workweek rejects. */
  predicate FirstRejected(tokens: seq<string>, k: int) {
    0 <= k < |tokens| && !IsWorkdayToken(tokens[k]) && forall i :: 0 <= i < k ==> IsWorkdayToken(tokens[i])
  }

  /**
    Parses a workweek: splits at `,`, then takes the tokens in order, failing
    on the first one that is not a u32 or not in [1, 7]; duplicates collapse.
   */
  method ParseWorkweek(text: string) returns (r: Result<set<int>>)
    ensures var tokens := Tokens(text);
            r.Ok? <==> forall i :: 0 <= i < |tokens| ==> IsWorkdayToken(tokens[i])
    ensures r.Ok? ==> r.value == DaysOf(Tokens(text))
    ensures r.Ok? ==> forall x :: x in r.value ==> 1 <= x <= 7
    ensures r.Ok? ==> r.value != {} && HasWorkday(r.value)
    ensures var tokens := Tokens(text);
            r.Err? ==> exists k :: FirstRejected(tokens, k) && r.error == TokenError(tokens[k])
  {
    var tokens := Tokens(text);
    var v: seq<int> := [];
    for k := 0 to |tokens|
      invariant |v| == k
      invariant forall i :: 0 <= i < k ==> IsWorkdayToken(tokens[i]) && v[i] == ParseU32(tokens[i]).value
    {
      var token := tokens[k];
      var w := ParseU32(token);
      if w.None? {
        assert FirstRejected(tokens, k) && TokenError(tokens[k]) == InvalidWorkday(token);
        return Err(InvalidWorkday(token));
      }
      if w.value < 1 || w.value > 7 {
        assert FirstRejected(tokens, k) && TokenError(tokens[k]) == WorkdayOutOfRange(w.value);
        return Err(WorkdayOutOfRange(w.value));
      }
      v := v + [w.value];
    }
    var days := set x | x in v;
    CollectedDays(tokens, v);
    return Ok(days);
  }

  /** The values of a list of accepted tokens, gathered into a set: their workweek, never empty. */
  lemma CollectedDays(tokens: seq<string>, v: seq<int>)
    requires |tokens| >= 1 && |v| == |tokens|
    requires forall i :: 0 <= i < |tokens| ==> IsWorkdayToken(tokens[i]) && v[i] == ParseU32(tokens[i]).value
    ensures (set x | x in v) == DaysOf(tokens)
    ensures (set x | x in v) != {} && HasWorkday(set x | x in v)
    ensures forall x :: x in DaysOf(tokens) ==> 1 <= x <= 7
  {
    var days := set x | x in v;
    forall x | x in days
      ensures exists i :: 0 <= i < |tokens| && IsWorkdayToken(tokens[i]) && x == ParseU32(tokens[i]).value
    {
      var i :| 0 <= i < |v| && v[i] == x;
    }
    assert v[0] in days && 1 <= v[0] <= 7;
  }
}
