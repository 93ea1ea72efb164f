/**
 * The string handling the two services rely on: lowercasing of names,
 * decimal digit strings read as numbers, and splitting a URL on '/'.
 */
module Text {

  // ---------------------------------------------------------------------------
  // Lowercasing (String.prototype.toLocaleLowerCase, restricted to ASCII)
  // ---------------------------------------------------------------------------

  predicate IsUpper(c: char) {
    'A' <= c <= 'Z'
  }

  function LowerChar(c: char): char {
    if IsUpper(c) then (c as int - 'A' as int + 'a' as int) as char else c
  }

  /** A string with no upper-case letter: the form every stored name is meant to have. */
  predicate IsLower(s: string) {
    forall i :: 0 <= i < |s| ==> !IsUpper(s[i])
  }

  /** Each upper-case letter replaced by its lower-case partner, every other character kept. */
  function ToLower(s: string): (r: string)
    ensures |r| == |s|
    ensures IsLower(r)
    ensures forall i :: 0 <= i < |s| && !IsUpper(s[i]) ==> r[i] == s[i]
    ensures forall i :: 0 <= i < |s| && IsUpper(s[i]) ==> r[i] as int == s[i] as int + 32
  {
    seq(|s|, i requires 0 <= i < |s| => LowerChar(s[i]))
  }

  /** Lowercasing changes a string exactly when it holds an upper-case letter. */
  lemma ToLowerFixesLower(s: string)
    ensures ToLower(s) == s <==> IsLower(s)
  {
    if IsLower(s) {
      assert forall i :: 0 <= i < |s| ==> ToLower(s)[i] == s[i];
    }
  }

  /** Lowercasing twice is lowercasing once. */
  lemma ToLowerIdempotent(s: string)
    ensures ToLower(ToLower(s)) == ToLower(s)
  {
    ToLowerFixesLower(ToLower(s));
  }

  // ---------------------------------------------------------------------------
  // Decimal digit strings (unary `+` on a string of digits)
  // ---------------------------------------------------------------------------

  predicate IsDigit(c: char) {
    '0' <= c <= '9'
  }

  /** A non-empty string of decimal digits: the only strings this model reads as numbers. */
  predicate IsDigits(s: string) {
    |s| > 0 && forall i :: 0 <= i < |s| ==> IsDigit(s[i])
  }

  function DigitChar(d: nat): (c: char)
    requires d < 10
    ensures IsDigit(c)
  {
    ('0' as int + d) as char
  }

  function DigitValue(c: char): (d: nat)
    requires IsDigit(c)
    ensures d < 10 && DigitChar(d) == c
  {
    c as int - '0' as int
  }

  /** The value of a string of decimal digits, most significant digit first; it is 0 exactly when every digit is '0'. */
  function ParseNat(s: string): (n: nat)
    requires forall i :: 0 <= i < |s| ==> IsDigit(s[i])
    ensures n == 0 <==> forall i :: 0 <= i < |s| ==> s[i] == '0'
    decreases |s|
  {
    if s == [] then 0 else 10 * ParseNat(s[..|s| - 1]) + DigitValue(s[|s| - 1])
  }

  /** The shortest decimal representation of n. */
  function NatToDigits(n: nat): (s: string)
    ensures IsDigits(s)
    ensures |s| > 1 ==> s[0] != '0'
  {
    if n < 10 then [DigitChar(n)] else NatToDigits(n / 10) + [DigitChar(n % 10)]
  }

  /** Reading back the decimal representation of n gives n. */
  lemma {:induction false} ParseNatToDigits(n: nat)
    ensures ParseNat(NatToDigits(n)) == n
  {
    var s := NatToDigits(n);
    if n >= 10 {
      ParseNatToDigits(n / 10);
      assert s[..|s| - 1] == NatToDigits(n / 10);
    }
  }

  /** A digit string without leading zeros is the decimal representation of its value. */
  lemma {:induction false} DigitsToParseNat(s: string)
    requires IsDigits(s) && (|s| == 1 || s[0] != '0')
    ensures NatToDigits(ParseNat(s)) == s
    decreases |s|
  {
    if |s| > 1 {
      var init := s[..|s| - 1];
      DigitsToParseNat(init);
      var n := ParseNat(s);
      assert n / 10 == ParseNat(init) && n % 10 == DigitValue(s[|s| - 1]);
      assert s == init + [s[|s| - 1]];
    }
  }

  // ---------------------------------------------------------------------------
  // Splitting on a separator (String.prototype.split with a one-character separator)
  // ---------------------------------------------------------------------------

  /**
   * The pieces of s between occurrences of sep, in order. As in JavaScript, a
   * separator at either end yields an empty piece, and the empty string splits
   * into one empty piece.
   */
  function Split(s: string, sep: char): (r: seq<string>)
    ensures |r| >= 1
    ensures forall i :: 0 <= i < |r| ==> sep !in r[i]
    decreases |s|
  {
    if s == [] then [""]
    else
      var init := Split(s[..|s| - 1], sep);
      var c := s[|s| - 1];
      if c == sep then init + [""]
      else init[..|init| - 1] + [init[|init| - 1] + [c]]
  }

  /** The pieces glued back together with sep between neighbours. */
  function Join(ss: seq<string>, sep: char): string
    requires |ss| >= 1
    decreases |ss|
  {
    if |ss| == 1 then ss[0] else Join(ss[..|ss| - 1], sep) + [sep] + ss[|ss| - 1]
  }

  /** Joining the pieces of a split gives back the original string. */
  lemma {:induction false} JoinSplit(s: string, sep: char)
    ensures Join(Split(s, sep), sep) == s
    decreases |s|
  {
    if s != [] {
      var t := s[..|s| - 1];
      var c := s[|s| - 1];
      var init := Split(t, sep);
      JoinSplit(t, sep);
      assert s == t + [c];
      if c == sep {
        var r := init + [""];
        assert r[..|r| - 1] == init;
      } else {
        var r := init[..|init| - 1] + [init[|init| - 1] + [c]];
        if |init| == 1 {
          assert Join(init, sep) == init[0];
        } else {
          assert r[..|r| - 1] == init[..|init| - 1];
        }
      }
    }
  }

  /** A string without the separator splits into itself alone. */
  lemma {:induction false} SplitWithoutSeparator(x: string, sep: char)
    requires sep !in x
    ensures Split(x, sep) == [x]
    decreases |x|
  {
    if x != [] {
      SplitWithoutSeparator(x[..|x| - 1], sep);
      assert x == x[..|x| - 1] + [x[|x| - 1]];
    }
  }

  /** Appending a separator and a separator-free piece appends exactly that piece. */
  lemma {:induction false} SplitAppendPiece(a: string, sep: char, x: string)
    requires sep !in x
    ensures Split(a + [sep] + x, sep) == Split(a, sep) + [x]
    decreases |x|
  {
    var s := a + [sep] + x;
    if x == [] {
      assert s[..|s| - 1] == a;
    } else {
      var x' := x[..|x| - 1];
      SplitAppendPiece(a, sep, x');
      assert s[..|s| - 1] == a + [sep] + x';
      assert x == x' + [x[|x| - 1]];
    }
  }

  /** Splitting a join of separator-free pieces gives back the pieces. */
  lemma {:induction false} SplitJoin(ss: seq<string>, sep: char)
    requires |ss| >= 1
    requires forall i :: 0 <= i < |ss| ==> sep !in ss[i]
    ensures Split(Join(ss, sep), sep) == ss
    decreases |ss|
  {
    if |ss| == 1 {
      SplitWithoutSeparator(ss[0], sep);
    } else {
      var init := ss[..|ss| - 1];
      SplitJoin(init, sep);
      SplitAppendPiece(Join(init, sep), sep, ss[|ss| - 1]);
      assert init + [ss[|ss| - 1]] == ss;
    }
  }
}
