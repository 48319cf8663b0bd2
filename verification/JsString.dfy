/** The ECMAScript string operations the services use. Letters outside ASCII and the Russian alphabet
    have no case here. */
module JsString {

  /** `\s`: ECMAScript white space and line terminators. */
  predicate IsSpace(c: char) {
    var n := c as int;
    9 <= n <= 13 || n in {0x20, 0xA0, 0x1680, 0x2028, 0x2029, 0x202F, 0x205F, 0x3000, 0xFEFF} || 0x2000 <= n <= 0x200A
  }

  function Trim(s: string): string {
    if s == "" then ""
    else if IsSpace(s[0]) then Trim(s[1..])
    else if IsSpace(s[|s| - 1]) then Trim(s[..|s| - 1])
    else s
  }

  function LowerChar(c: char): char {
    var n := c as int;
    if 'A' <= c <= 'Z' || 0x410 <= n <= 0x42F then (n + 32) as char
    else if n == 0x401 then 0x451 as char
    else c
  }

  function Lower(s: string): string {
    seq(|s|, i requires 0 <= i < |s| => LowerChar(s[i]))
  }

  lemma {:induction false} TrimmedEnds(s: string)
    ensures Trim(s) == "" || (!IsSpace(Trim(s)[0]) && !IsSpace(Trim(s)[|Trim(s)| - 1]))
    decreases |s|
  {
    if s != "" {
      if IsSpace(s[0]) {
        TrimmedEnds(s[1..]);
      } else if IsSpace(s[|s| - 1]) {
        TrimmedEnds(s[..|s| - 1]);
      }
    }
  }

  ghost predicate AllSpaces(s: string) {
    forall i | 0 <= i < |s| :: IsSpace(s[i])
  }

  /** Space around a text is trimmed, whatever there is of it. */
  lemma {:induction false} TrimIgnoresSpace(before: string, s: string, after: string)
    requires AllSpaces(before) && AllSpaces(after)
    ensures Trim(before + s + after) == Trim(s)
    decreases |before| + |s| + |after|
  {
    var t := before + s + after;
    if before != "" {
      assert t[0] == before[0] && t[1..] == before[1..] + s + after;
      TrimIgnoresSpace(before[1..], s, after);
    } else if s != "" && IsSpace(s[0]) {
      assert t[0] == s[0] && t[1..] == "" + s[1..] + after && before + s[1..] + after == t[1..];
      TrimIgnoresSpace(before, s[1..], after);
    } else if after != "" {
      var rest := after[..|after| - 1];
      assert t[|t| - 1] == after[|after| - 1] && t[..|t| - 1] == before + s + rest;
      if s == "" {
        assert t[0] == after[0] && t[1..] == before + s + after[1..];
        TrimIgnoresSpace(before, s, after[1..]);
      } else {
        assert t[0] == s[0];
        TrimIgnoresSpace(before, s, rest);
      }
    } else {
      assert t == s;
    }
  }

  ghost predicate Padded(s: string, core: string) {
    exists before, after :: AllSpaces(before) && AllSpaces(after) && s == before + core + after
  }

  lemma PadLeft(c: char, s: string, core: string)
    requires IsSpace(c) && Padded(s, core)
    ensures Padded([c] + s, core)
  {
    var before, after :| AllSpaces(before) && AllSpaces(after) && s == before + core + after;
    assert AllSpaces([c] + before) && [c] + s == ([c] + before) + core + after;
  }

  lemma PadRight(c: char, s: string, core: string)
    requires IsSpace(c) && Padded(s, core)
    ensures Padded(s + [c], core)
  {
    var before, after :| AllSpaces(before) && AllSpaces(after) && s == before + core + after;
    assert AllSpaces(after + [c]) && s + [c] == before + core + (after + [c]);
  }

  lemma PadNone(s: string)
    ensures Padded(s, s)
  {
    assert AllSpaces("") && s == "" + s + "";
  }

  /** Trimming takes away space and nothing else. */
  lemma {:induction false} TrimTakesSpace(s: string)
    ensures Padded(s, Trim(s))
    decreases |s|
  {
    var n := |s| - 1;
    if s == "" {
      PadNone(s);
    } else if IsSpace(s[0]) {
      TrimTakesSpace(s[1..]);
      PadLeft(s[0], s[1..], Trim(s));
      assert s == [s[0]] + s[1..];
    } else if IsSpace(s[n]) {
      TrimTakesSpace(s[..n]);
      PadRight(s[n], s[..n], Trim(s));
      assert s == s[..n] + [s[n]];
    } else {
      PadNone(s);
    }
  }

  /** The same letter, in upper or lower case. */
  predicate SameLetter(a: char, b: char) {
    || a == b
    || ('A' <= a <= 'Z' && b as int == a as int + 32) || ('A' <= b <= 'Z' && a as int == b as int + 32)
    || (0x410 <= a as int <= 0x42F && b as int == a as int + 32)
    || (0x410 <= b as int <= 0x42F && a as int == b as int + 32)
    || (a as int == 0x401 && b as int == 0x451) || (b as int == 0x401 && a as int == 0x451)
  }

  ghost predicate SameLetters(s: string, t: string) {
    |s| == |t| && forall i | 0 <= i < |s| :: SameLetter(s[i], t[i])
  }

  lemma LowerCharIff(a: char, b: char)
    ensures LowerChar(a) == LowerChar(b) <==> SameLetter(a, b)
  {
  }

  lemma LowerIff(s: string, t: string)
    ensures Lower(s) == Lower(t) <==> SameLetters(s, t)
  {
    if Lower(s) == Lower(t) {
      assert |Lower(s)| == |s| && |Lower(t)| == |t|;
      forall i | 0 <= i < |s| ensures SameLetter(s[i], t[i]) {
        assert Lower(s)[i] == Lower(t)[i];
        LowerCharIff(s[i], t[i]);
      }
    }
    if SameLetters(s, t) {
      forall i | 0 <= i < |s| ensures Lower(s)[i] == Lower(t)[i] {
        LowerCharIff(s[i], t[i]);
      }
    }
  }

  /** Lower-casing makes no space and is finished after one pass. */
  lemma LowerCharSettles(c: char)
    ensures IsSpace(LowerChar(c)) <==> IsSpace(c)
    ensures LowerChar(LowerChar(c)) == LowerChar(c)
  {
  }

  lemma LowerTrimSettles(s: string)
    ensures Lower(Trim(Lower(Trim(s)))) == Lower(Trim(s))
  {
    var t := Trim(s);
    TrimmedEnds(s);
    if t != "" {
      LowerCharSettles(t[0]);
      LowerCharSettles(t[|t| - 1]);
      assert Lower(t)[0] == LowerChar(t[0]) && Lower(t)[|t| - 1] == LowerChar(t[|t| - 1]);
    }
    assert Trim(Lower(t)) == Lower(t);
    forall i | 0 <= i < |t| ensures Lower(Lower(t))[i] == Lower(t)[i] {
      LowerCharSettles(t[i]);
    }
  }

  /** The decimal text of a natural number. */
  function Digits(n: nat): string {
    if n < 10 then [('0' as int + n) as char] else Digits(n / 10) + [('0' as int + n % 10) as char]
  }

  lemma {:induction false} DigitsInjective(m: nat, n: nat)
    requires Digits(m) == Digits(n)
    ensures m == n
  {
    DigitsNotEmpty(m / 10);
    DigitsNotEmpty(n / 10);
    assert Digits(m)[|Digits(m)| - 1] == Digits(n)[|Digits(n)| - 1];
    if m >= 10 && n >= 10 {
      assert Digits(m)[..|Digits(m)| - 1] == Digits(m / 10);
      assert Digits(n)[..|Digits(n)| - 1] == Digits(n / 10);
      DigitsInjective(m / 10, n / 10);
    }
  }

  lemma {:induction false} DigitsNotEmpty(n: nat)
    ensures |Digits(n)| >= 1
    ensures forall i | 0 <= i < |Digits(n)| :: '0' <= Digits(n)[i] <= '9'
  {
    if n >= 10 {
      DigitsNotEmpty(n / 10);
    }
  }

  ghost predicate Free(s: string, c: char) {
    forall i | 0 <= i < |s| :: s[i] != c
  }

  lemma {:induction false} TrimKeepsFree(s: string, c: char)
    requires Free(s, c)
    ensures Free(Trim(s), c)
    decreases |s|
  {
    if s != "" {
      if IsSpace(s[0]) {
        TrimKeepsFree(s[1..], c);
      } else if IsSpace(s[|s| - 1]) {
        TrimKeepsFree(s[..|s| - 1], c);
      }
    }
  }

  /** A separator that occurs on neither side splits a string in one way only. */
  lemma SplitOnce(a: string, b: string, x: string, y: string, c: char)
    requires a + [c] + b == x + [c] + y && Free(a, c) && Free(b, c)
    ensures a == x && b == y
  {
    var s, t := a + [c] + b, x + [c] + y;
    assert t[|x|] == c;
    forall i | 0 <= i < |s| && i != |a| ensures s[i] != c {
      if i < |a| {
        assert s[i] == a[i];
      } else {
        assert s[i] == b[i - |a| - 1];
      }
    }
    assert s[..|a|] == a && t[..|x|] == x && s[|a| + 1..] == b && t[|x| + 1..] == y;
  }

  /** The last occurrence splits in one way only when nothing after it contains the separator. */
  lemma SplitLast(a: string, b: string, x: string, y: string, c: char)
    requires a + [c] + b == x + [c] + y && Free(b, c) && Free(y, c)
    ensures a == x && b == y
  {
    var s, t := a + [c] + b, x + [c] + y;
    assert s[|a|] == c && t[|x|] == c;
    forall i | |a| < i < |s| ensures s[i] != c {
      assert s[i] == b[i - |a| - 1];
    }
    forall i | |x| < i < |t| ensures t[i] != c {
      assert t[i] == y[i - |x| - 1];
    }
    assert s[..|a|] == a && t[..|x|] == x && s[|a| + 1..] == b && t[|x| + 1..] == y;
  }
}
