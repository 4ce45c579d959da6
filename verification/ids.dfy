/** Task-id arguments: Rust's `str::parse::<i32>` and `parse_task_ids`. */
module Ids {
  import opened Tasks

  const I32Min: int := -0x8000_0000
  const I32Max: int := 0x7fff_ffff

  predicate IsDigit(c: char)
  {
    '0' <= c <= '9'
  }

  predicate AllDigits(s: string)
  {
    forall j :: 0 <= j < |s| ==> IsDigit(s[j])
  }

  function DigitValue(c: char): (d: nat)
    requires IsDigit(c)
    ensures d < 10
  {
    (c as int) - ('0' as int)
  }

  /** The value of a run of decimal digits, most significant first. */
  function DigitsValue(s: string): nat
    requires AllDigits(s)
    decreases |s|
  {
    if s == [] then 0 else DigitsValue(s[..|s| - 1]) * 10 + DigitValue(s[|s| - 1])
  }

  /** `str::parse::<i32>`: an optional `'+'` or `'-'`, then at least one
      ASCII digit and nothing else, with a value that fits in 32 bits. */
  function ParseI32(s: string): (r: Result<int>)
    ensures !r.Panic?
    ensures r.Ok? ==> I32Min <= r.value <= I32Max
    ensures r.Ok? ==> |s| > 0 && (r.value < 0 ==> s[0] == '-')
    ensures |s| == 0 || (s[0] != '-' && s[0] != '+' && !IsDigit(s[0])) ==> r.Err?
  {
    if |s| == 0 then Err
    else
      var digits := if s[0] == '-' || s[0] == '+' then s[1..] else s;
      if |digits| == 0 || !AllDigits(digits) then Err
      else
        var magnitude: int := DigitsValue(digits);
        var v := if s[0] == '-' then -magnitude else magnitude;
        if I32Min <= v <= I32Max then Ok(v) else Err
  }

  function Digit(d: nat): (c: char)
    requires d < 10
    ensures IsDigit(c) && DigitValue(c) == d
  {
    ('0' as int + d) as char
  }

  /** The decimal text of a natural number, without leading zeros. */
  function ShowNat(n: nat): (s: string)
    ensures |s| > 0 && AllDigits(s)
    decreases n
  {
    if n < 10 then [Digit(n)] else ShowNat(n / 10) + [Digit(n % 10)]
  }

  /** The decimal text of an integer, as `i32::to_string` writes it. */
  function ShowInt(n: int): (s: string)
    ensures |s| > 0
  {
    if n < 0 then "-" + ShowNat(0 - n) else ShowNat(n)
  }

  lemma {:induction false} ShowNatValue(n: nat)
    ensures DigitsValue(ShowNat(n)) == n
    decreases n
  {
    if n >= 10 {
      var s := ShowNat(n);
      assert s[..|s| - 1] == ShowNat(n / 10);
      ShowNatValue(n / 10);
    }
  }

  /** Every 32-bit integer parses back from its decimal text. */
  lemma ParseShow(n: int)
    requires I32Min <= n <= I32Max
    ensures ParseI32(ShowInt(n)) == Ok(n)
  {
    var s := ShowInt(n);
    if n < 0 {
      assert s[1..] == ShowNat(-n);
      ShowNatValue(-n);
    } else {
      ShowNatValue(n);
    }
  }

  /** The arguments a command receives: everything after the command name. */
  function Operands(arguments: seq<string>): (rest: seq<string>)
    ensures |rest| == if |arguments| < 2 then 0 else |arguments| - 2
    ensures forall k :: 0 <= k < |rest| ==> rest[k] == arguments[k + 2]
  {
    if |arguments| < 2 then [] else arguments[2..]
  }

  /** An argument `parse_task_ids` accepts against the bound `max`. */
  predicate AcceptedId(arg: string, max: int)
  {
    ParseI32(arg).Ok? && ParseI32(arg).value <= max
  }

  /** Parse each argument in turn, stopping at the first that is not an
      integer or exceeds `max`. */
  function ParseEach(args: seq<string>, max: int): (r: Result<seq<int>>)
    ensures !r.Panic?
    ensures r.Ok? <==> forall k :: 0 <= k < |args| ==> AcceptedId(args[k], max)
    ensures r.Ok? ==> |r.value| == |args|
    ensures r.Ok? ==> forall k :: 0 <= k < |args| ==> Ok(r.value[k]) == ParseI32(args[k])
    decreases |args|
  {
    if args == [] then Ok([])
    else
      match ParseI32(args[0])
      case Ok(v) =>
        if v > max then Err
        else
          var rest := ParseEach(args[1..], max);
          assert forall k :: 1 <= k < |args| ==> args[k] == args[1..][k - 1];
          if rest.Ok? then Ok([v] + rest.value) else Err
      case _ => Err
  }

  /** `parse_task_ids`: the ids named by the arguments after the command, in
      order, each at most `max`. Negative values are not rejected. */
  function ParseTaskIds(arguments: seq<string>, max: int): (r: Result<seq<int>>)
    ensures !r.Panic?
    ensures r.Ok? <==> forall k :: 2 <= k < |arguments| ==> AcceptedId(arguments[k], max)
    ensures r.Ok? ==> |r.value| == |Operands(arguments)|
    ensures r.Ok? ==> forall k :: 2 <= k < |arguments| ==> Ok(r.value[k - 2]) == ParseI32(arguments[k])
    ensures r.Ok? ==> forall i :: 0 <= i < |r.value| ==> r.value[i] <= max
  {
    var ops := Operands(arguments);
    var r := ParseEach(ops, max);
    assert forall k :: 2 <= k < |arguments| ==> arguments[k] == ops[k - 2];
    r
  }
}
