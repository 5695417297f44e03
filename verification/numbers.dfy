/** Decimal integers as the engine reads and writes them: `_safe_int` on the
    way in (services/forensic-engine/main.py:60-69) and Python's `str(int)`
    on the way out (the port numbers inside the session key text). */
module Numbers {
  import opened Options
  import opened Text

  predicate IsDigit(c: char) {
    '0' <= c <= '9'
  }

  function DigitValue(c: char): nat
    requires IsDigit(c)
  {
    (c as int) - ('0' as int)
  }

  function DigitChar(d: nat): (c: char)
    requires d < 10
    ensures IsDigit(c) && DigitValue(c) == d
  {
    ('0' as int + d) as char
  }

  /** The body of a base-10 literal accepted by Python's `int()`: digits, with
      single underscores allowed between two digits. */
  predicate DigitRun(s: string) {
    && |s| > 0
    && DigitsOrUnderscores(s)
    && forall i :: 0 <= i < |s| && s[i] == '_' ==> 0 < i < |s| - 1 && IsDigit(s[i - 1]) && IsDigit(s[i + 1])
  }

  predicate DigitsOrUnderscores(s: string) {
    forall i :: 0 <= i < |s| ==> IsDigit(s[i]) || s[i] == '_'
  }

  /** The value of a run of digits, underscores being ignored. */
  function RunValue(s: string): (n: nat)
    requires DigitsOrUnderscores(s)
  {
    if |s| == 0 then 0
    else if s[|s| - 1] == '_' then RunValue(s[..|s| - 1])
    else RunValue(s[..|s| - 1]) * 10 + DigitValue(s[|s| - 1])
  }

  /** Python's `int(t)` for a text `t` that has already been stripped: an
      optional sign followed by a digit run; anything else is a ValueError,
      read here as `None`. Digit runs of any length are read, as Python did
      before it limited decimal conversions to 4300 digits. */
  function ParseInt(t: string): Option<int> {
    if |t| > 0 && (t[0] == '+' || t[0] == '-') then
      if DigitRun(t[1..]) then
        var n: int := RunValue(t[1..]);
        Some(if t[0] == '-' then -n else n)
      else None
    else if DigitRun(t) then Some(RunValue(t))
    else None
  }

  /** `_safe_int`: absent, empty, whitespace-only and unparsable text all read
      as absent. */
  function SafeInt(v: Option<string>): (r: Option<int>)
    ensures v.None? ==> r.None?
    ensures v.Some? && Blank(v.value) ==> r.None?
    ensures v.Some? && !Blank(v.value) ==> r == ParseInt(Strip(v.value))
  {
    match v
    case None => None
    case Some(text) =>
      var t := Strip(text);
      if t == "" then None else ParseInt(t)
  }

  /** Python's `str(n)` for a non-negative integer: its decimal digits. */
  function NatText(n: nat): (s: string)
    ensures |s| > 0
    ensures forall i :: 0 <= i < |s| ==> IsDigit(s[i])
    ensures RunValue(s) == n
  {
    if n < 10 then [DigitChar(n)]
    else
      var prefix := NatText(n / 10);
      var s := prefix + [DigitChar(n % 10)];
      assert s[..|s| - 1] == prefix;
      s
  }

  /** Python's `str(n)`: a minus sign for negative numbers, then the digits
      (with no limit on their number). */
  function IntText(n: int): (s: string)
    ensures ParseInt(s) == Some(n)
    ensures Tight(s)
  {
    if n < 0 then
      var s := "-" + NatText(-n);
      assert s[1..] == NatText(-n);
      s
    else NatText(n)
  }

  /** Round trip: `_safe_int` reads back the decimal rendering of any
      integer, whatever whitespace surrounds it. */
  lemma SafeIntReadsIntText(n: int, pre: string, post: string)
    requires Blank(pre) && Blank(post)
    ensures SafeInt(Some(pre + IntText(n) + post)) == Some(n)
  {
    StripPadded(pre, IntText(n), post);
  }
}
