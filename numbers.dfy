/** Python's `str(i)` and `int(s)` on decimal integers. */
module Numbers {
  import opened Wrappers

  predicate IsDigit(c: char) {
    '0' <= c <= '9'
  }

  /** A non-empty run of decimal digits. */
  predicate IsDigits(s: string) {
    |s| > 0 && forall i :: 0 <= i < |s| ==> IsDigit(s[i])
  }

  function DigitValue(c: char): nat
    requires IsDigit(c)
  {
    (c as int) - ('0' as int)
  }

  function DigitChar(d: nat): (c: char)
    requires d < 10
    ensures IsDigit(c) && DigitValue(c) == d
  {
    (('0' as int) + d) as char
  }

  function DigitsValue(s: string): nat
    requires forall i :: 0 <= i < |s| ==> IsDigit(s[i])
    decreases |s|
  {
    if s == [] then 0 else 10 * DigitsValue(s[..|s| - 1]) + DigitValue(s[|s| - 1])
  }

  /** The decimal representation of a natural number, without leading zeros. */
  function ShowNat(n: nat): (s: string)
    ensures IsDigits(s)
    decreases n
  {
    if n < 10 then [DigitChar(n)] else ShowNat(n / 10) + [DigitChar(n % 10)]
  }

  /** Python's `str(i)` for an integer. */
  function ShowInt(i: int): string {
    if i < 0 then "-" + ShowNat(-i) else ShowNat(i)
  }

  /** Python's whitespace, the characters `str.strip()` and `int()` ignore around a number. */
  predicate IsSpace(c: char) {
    || ('\t' <= c <= '\r') || ('\U{1c}' <= c <= '\U{1f}') || c == ' '
    || c == '\U{85}' || c == '\U{a0}' || c == '\U{1680}' || ('\U{2000}' <= c <= '\U{200a}')
    || c == '\U{2028}' || c == '\U{2029}' || c == '\U{202f}' || c == '\U{205f}' || c == '\U{3000}'
  }

  /** `s` without its leading whitespace. */
  function StripStart(s: string): string
    decreases |s|
  {
    if s != [] && IsSpace(s[0]) then StripStart(s[1..]) else s
  }

  /** `s` without its trailing whitespace. */
  function StripEnd(s: string): string
    decreases |s|
  {
    if s != [] && IsSpace(s[|s| - 1]) then StripEnd(s[..|s| - 1]) else s
  }

  /** `str.strip()`. */
  function Strip(s: string): string {
    StripEnd(StripStart(s))
  }

  /** Decimal digits with single underscores between them (`1_000`), as Python's integer literals allow. */
  predicate IsGroupedDigits(s: string)
    decreases |s|
  {
    && |s| > 0 && IsDigit(s[0])
    && (|s| == 1 || if s[1] == '_' then IsGroupedDigits(s[2..]) else IsGroupedDigits(s[1..]))
  }

  /** The digits of a grouped digit string, without the underscores. */
  function Ungroup(s: string): (r: string)
    requires IsGroupedDigits(s)
    ensures IsDigits(r) && r[0] == s[0]
    decreases |s|
  {
    if |s| == 1 then s
    else if s[1] == '_' then [s[0]] + Ungroup(s[2..])
    else [s[0]] + Ungroup(s[1..])
  }

  /**
   * Python's `int(s)` in base 10: surrounding whitespace, then an optional sign, then digits with
   * single underscores between them; `None` stands for the ValueError raised on anything else.
   */
  function ParseInt(s: string): Option<int> {
    var t := Strip(s);
    if |t| > 0 && (t[0] == '-' || t[0] == '+') then
      if IsGroupedDigits(t[1..]) then
        var v: int := DigitsValue(Ungroup(t[1..]));
        Some(if t[0] == '-' then -v else v)
      else None
    else if IsGroupedDigits(t) then Some(DigitsValue(Ungroup(t)))
    else None
  }

  /** Plain digits are grouped digits without underscores. */
  lemma {:induction false} DigitsUngrouped(s: string)
    requires IsDigits(s)
    ensures IsGroupedDigits(s) && Ungroup(s) == s
    decreases |s|
  {
    if |s| > 1 {
      DigitsUngrouped(s[1..]);
      assert s == [s[0]] + s[1..];
    }
  }

  /** Leading whitespace is skipped. */
  lemma {:induction false} StripStartSpaces(pad: string, s: string)
    requires forall i :: 0 <= i < |pad| ==> IsSpace(pad[i])
    ensures StripStart(pad + s) == StripStart(s)
    decreases |pad|
  {
    if pad != [] {
      assert (pad + s)[1..] == pad[1..] + s;
      StripStartSpaces(pad[1..], s);
    } else {
      assert pad + s == s;
    }
  }

  /** Trailing whitespace is skipped. */
  lemma {:induction false} StripEndSpaces(s: string, pad: string)
    requires forall i :: 0 <= i < |pad| ==> IsSpace(pad[i])
    ensures StripEnd(s + pad) == StripEnd(s)
    decreases |pad|
  {
    if pad != [] {
      var init := pad[..|pad| - 1];
      assert (s + pad)[..|s + pad| - 1] == s + init;
      StripEndSpaces(s, init);
    } else {
      assert s + pad == s;
    }
  }

  /** Whitespace around a number does not change what `int()` reads. */
  lemma ParseIntPadded(before: string, s: string, after: string)
    requires forall i :: 0 <= i < |before| ==> IsSpace(before[i])
    requires forall i :: 0 <= i < |after| ==> IsSpace(after[i])
    requires s != [] && !IsSpace(s[0]) && !IsSpace(s[|s| - 1])
    ensures ParseInt(before + s + after) == ParseInt(s)
  {
    assert before + s + after == before + (s + after);
    StripStartSpaces(before, s + after);
    assert StripStart(s + after) == s + after;
    StripEndSpaces(s, after);
    assert Strip(before + s + after) == s == Strip(s);
  }

  /** Underscores between digits are read as in `int("1_000")`; doubled or trailing ones are refused. */
  lemma ParseIntGrouped()
    ensures ParseInt("1_000") == Some(1000)
    ensures ParseInt("1__000") == None && ParseInt("1000_") == None && ParseInt("_1000") == None
  {
    ParseThousand();
    ParseBadGroups();
  }

  /** `int("1_000") == 1000`. */
  lemma ParseThousand()
    ensures ParseInt("1_000") == Some(1000)
  {
    assert Strip("1_000") == "1_000";
    assert "1_000"[2..] == "000";
    DigitsUngrouped("000");
    assert Ungroup("1_000") == "1000";
    assert DigitsValue("1000") == 1000 by {
      assert "1000"[..3] == "100" && "100"[..2] == "10" && "10"[..1] == "1" && "1"[..0] == "";
    }
  }

  /** Doubled, trailing and leading underscores raise ValueError. */
  lemma ParseBadGroups()
    ensures ParseInt("1__000") == None && ParseInt("1000_") == None && ParseInt("_1000") == None
  {
    assert Strip("1__000") == "1__000";
    assert "1__000"[2..] == "_000";
    assert Strip("1000_") == "1000_";
    assert "1000_"[1..] == "000_" && "000_"[1..] == "00_" && "00_"[1..] == "0_" && "0_"[2..] == "";
    assert Strip("_1000") == "_1000";
  }

  lemma {:induction false} DigitsValueShow(n: nat)
    ensures DigitsValue(ShowNat(n)) == n
    decreases n
  {
    if n >= 10 {
      DigitsValueShow(n / 10);
      var s := ShowNat(n);
      assert s[..|s| - 1] == ShowNat(n / 10);
    }
  }

  /** `int(str(i)) == i`. */
  lemma ParseShow(i: int)
    ensures ParseInt(ShowInt(i)) == Some(i)
  {
    var s := ShowInt(i);
    var n: nat := if i < 0 then -i else i;
    DigitsValueShow(n);
    DigitsUngrouped(ShowNat(n));
    assert !IsSpace(s[0]) && !IsSpace(s[|s| - 1]);
    assert Strip(s) == s;
    if i < 0 {
      assert s[0] == '-' && s[1..] == ShowNat(-i);
    } else {
      assert IsDigit(s[0]);
    }
  }

  /** `str` is injective on integers, so two integers meet as strings exactly when they are equal. */
  lemma ShowIntInjective(a: int, b: int)
    ensures ShowInt(a) == ShowInt(b) <==> a == b
  {
    if ShowInt(a) == ShowInt(b) {
      ParseShow(a);
      ParseShow(b);
    }
  }
}
