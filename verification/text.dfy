/** The two pieces of Python string formatting the summary panel relies on:
    `sep.join(parts)` and the decimal text of an integer. */
module Text {
  import opened Seqs

  // ---------------------------------------------------------------------------
  // `", ".join(parts)` and its inverse
  // ---------------------------------------------------------------------------

  /** `sep.join(parts)`: the parts with `sep` between each two neighbours. */
  function Join(parts: seq<string>, sep: string): (joined: string)
  {
    if parts == [] then ""
    else if |parts| == 1 then parts[0]
    else parts[0] + sep + Join(parts[1..], sep)
  }

  /** `s.split(", ")`: the pieces of `s` between occurrences of ", ". */
  function SplitCommaSpace(s: string): (pieces: seq<string>)
    ensures |pieces| >= 1
  {
    if s == [] then [""]
    else if |s| >= 2 && s[0] == ',' && s[1] == ' ' then [""] + SplitCommaSpace(s[2..])
    else
      var rest := SplitCommaSpace(s[1..]);
      [[s[0]] + rest[0]] + rest[1..]
  }

  predicate HasNoComma(s: string) {
    ',' !in s
  }

  /** Splitting a comma-free text followed by `t` puts the text in front of the
      first piece of `t`. */
  lemma {:induction false} SplitCommaFreePrefix(x: string, t: string)
    requires HasNoComma(x)
    ensures SplitCommaSpace(x + t) == [x + SplitCommaSpace(t)[0]] + SplitCommaSpace(t)[1..]
  {
    if x != [] {
      assert (x + t)[1..] == x[1..] + t;
      assert x[0] in x;
      SplitCommaFreePrefix(x[1..], t);
      assert [x[0]] + (x[1..] + SplitCommaSpace(t)[0]) == x + SplitCommaSpace(t)[0];
    } else {
      var pieces := SplitCommaSpace(t);
      assert x + t == t;
      assert x + pieces[0] == pieces[0];
      assert [pieces[0]] + pieces[1..] == pieces;
    }
  }

  lemma SplitAfterSeparator(t: string)
    ensures SplitCommaSpace(", " + t) == [""] + SplitCommaSpace(t)
  {
    assert (", " + t)[2..] == t;
  }

  /** Joining names that hold no comma with ", " loses nothing: splitting the
      joined text gives back exactly the names, in order. */
  lemma {:induction false} JoinSplitRoundTrip(parts: seq<string>)
    requires parts != []
    requires forall p :: p in parts ==> HasNoComma(p)
    ensures SplitCommaSpace(Join(parts, ", ")) == parts
  {
    var head := parts[0];
    assert head in parts;
    assert head + "" == head;
    if |parts| == 1 {
      SplitCommaFreePrefix(head, "");
    } else {
      var tail := Join(parts[1..], ", ");
      assert forall p :: p in parts[1..] ==> p in parts;
      JoinSplitRoundTrip(parts[1..]);
      SplitAfterSeparator(tail);
      assert Join(parts, ", ") == head + (", " + tail);
      SplitCommaFreePrefix(head, ", " + tail);
    }
  }

  // ---------------------------------------------------------------------------
  // `str(n)` for an integer `n`, and its inverse
  // ---------------------------------------------------------------------------

  predicate IsDigit(c: char) {
    '0' <= c <= '9'
  }

  function DigitChar(d: nat): (c: char)
    requires d < 10
    ensures IsDigit(c)
  {
    ('0' as int + d) as char
  }

  function DigitValue(c: char): (d: nat)
    requires IsDigit(c)
  {
    (c as int - '0' as int) as nat
  }

  /** The decimal digits of `n`, most significant first, without leading zeros. */
  function NatDigits(n: nat): (s: string)
    ensures s != [] && forall c :: c in s ==> IsDigit(c)
    ensures s[0] == '0' ==> n == 0 && s == "0"
  {
    if n < 10 then [DigitChar(n)] else NatDigits(n / 10) + [DigitChar(n % 10)]
  }

  /** `str(n)`: an optional minus sign followed by the decimal digits of `|n|`. */
  function DecimalString(n: int): (s: string)
    ensures s != [] && (s[0] == '-' <==> n < 0)
    ensures var digits := if n < 0 then s[1..] else s;
            digits != [] && (forall c :: c in digits ==> IsDigit(c)) && (digits[0] == '0' ==> n == 0 && s == "0")
  {
    if n < 0 then "-" + NatDigits(-n)
    else
      var digits := NatDigits(n);
      assert digits[0] in digits;
      digits
  }

  /** The value of a string of decimal digits. */
  function DigitsValue(s: string): (v: nat)
    requires forall c :: c in s ==> IsDigit(c)
  {
    if s == [] then 0
    else
      assert forall c :: c in s[..|s| - 1] ==> c in s;
      DigitsValue(s[..|s| - 1]) * 10 + DigitValue(s[|s| - 1])
  }

  /** `int(s)` for a decimal text with an optional leading minus sign; `None`
      for any other text. */
  function ParseDecimal(s: string): (v: Option<int>)
  {
    if s != [] && s[0] == '-' && |s| > 1 && forall c :: c in s[1..] ==> IsDigit(c) then
      var magnitude: int := DigitsValue(s[1..]);
      Some(-magnitude)
    else if s != [] && forall c :: c in s ==> IsDigit(c) then
      Some(DigitsValue(s))
    else
      None
  }

  lemma {:induction false} NatDigitsRoundTrip(n: nat)
    ensures DigitsValue(NatDigits(n)) == n
  {
    if n >= 10 {
      var s := NatDigits(n);
      assert s[..|s| - 1] == NatDigits(n / 10);
      NatDigitsRoundTrip(n / 10);
    }
  }

  /** Reading back the decimal text of any integer gives that integer. */
  lemma DecimalRoundTrip(n: int)
    ensures ParseDecimal(DecimalString(n)) == Some(n)
  {
    var s := DecimalString(n);
    if n < 0 {
      assert s[1..] == NatDigits(-n);
      NatDigitsRoundTrip(-n);
    } else {
      assert s[0] in s;
      NatDigitsRoundTrip(n);
    }
  }
}
