/** The string operations the extractor uses: anchored regular-expression matches
    (`re.match`), `int()` on a digit run, `str.strip()`, `str.replace(x, '')` and `in`. */
module Text {
  import opened Results

  predicate IsDigit(c: char) { '0' <= c <= '9' }

  /** The class `[A-Za-z]`: ASCII letters only. */
  predicate IsLetter(c: char) { 'A' <= c <= 'Z' || 'a' <= c <= 'z' }

  /** Python's `str.isspace`: the characters `str.strip()` removes. */
  predicate IsSpace(c: char) {
    || '\t' <= c <= '\r'
    || '\U{1C}' <= c <= ' '
    || c == '\U{85}' || c == '\U{A0}' || c == '\U{1680}'
    || '\U{2000}' <= c <= '\U{200A}'
    || c == '\U{2028}' || c == '\U{2029}' || c == '\U{202F}' || c == '\U{205F}' || c == '\U{3000}'
  }

  predicate AllDigits(s: string) { forall i | 0 <= i < |s| :: IsDigit(s[i]) }
  predicate AllLetters(s: string) { forall i | 0 <= i < |s| :: IsLetter(s[i]) }
  predicate AllSpace(s: string) { forall i | 0 <= i < |s| :: IsSpace(s[i]) }

  // ---------------------------------------------------------------------------
  // The two patterns, as sets of strings (what a whole match may be)

  /** `\d+` */
  ghost predicate DigitPattern(w: string) { |w| >= 1 && AllDigits(w) }

  /** `[A-Za-z]+.+`: one or more letters, then one or more characters other than a newline. */
  ghost predicate NamePattern(w: string) {
    exists a | 1 <= a < |w| :: AllLetters(w[..a]) && '\n' !in w[a..]
  }

  // ---------------------------------------------------------------------------
  // re.match(r'\d+', s)

  /** The longest prefix of `s` made of digits. */
  function LeadingDigits(s: string): (r: string)
    ensures r <= s && AllDigits(r)
    ensures |r| == |s| || !IsDigit(s[|r|])
  {
    if |s| > 0 && IsDigit(s[0]) then [s[0]] + LeadingDigits(s[1..]) else []
  }

  /** The text `re.match(r'\d+', s)` matches, if any. */
  function MatchDigits(s: string): Option<string>
  {
    if |s| > 0 && IsDigit(s[0]) then Some(LeadingDigits(s)) else None
  }

  /** The match succeeds exactly when some prefix is in the pattern, and it is the longest such prefix. */
  lemma MatchDigitsIsLongestMatch(s: string)
    ensures MatchDigits(s).Some? <==> exists k | 0 <= k <= |s| :: DigitPattern(s[..k])
    ensures MatchDigits(s).Some? ==>
      var m := MatchDigits(s).value;
      && m <= s && DigitPattern(m)
      && forall k | |m| < k <= |s| :: !DigitPattern(s[..k])
  {
    if MatchDigits(s).Some? {
      var m := MatchDigits(s).value;
      assert s[..|m|] == m;
      forall k | |m| < k <= |s| ensures !DigitPattern(s[..k]) {
        assert s[..k][|m|] == s[|m|];
      }
    } else {
      forall k | 0 <= k <= |s| ensures !DigitPattern(s[..k]) {
        if k > 0 { assert s[..k][0] == s[0]; }
      }
    }
  }

  // ---------------------------------------------------------------------------
  // int() of a digit run, and its inverse str()

  function DigitValue(c: char): nat
    requires IsDigit(c)
  {
    c as int - '0' as int
  }

  function DigitChar(d: nat): (c: char)
    requires d < 10
    ensures IsDigit(c) && DigitValue(c) == d
  {
    ('0' as int + d) as char
  }

  /** `int(ds)` for a run of ASCII digits (leading zeros allowed). */
  function DigitsValue(ds: string): nat
    requires AllDigits(ds)
  {
    if ds == [] then 0 else 10 * DigitsValue(ds[..|ds| - 1]) + DigitValue(ds[|ds| - 1])
  }

  /** `str(n)`: the decimal numeral of `n`. */
  function Decimal(n: nat): (r: string)
    ensures |r| >= 1 && AllDigits(r)
  {
    if n < 10 then [DigitChar(n)] else Decimal(n / 10) + [DigitChar(n % 10)]
  }

  /** `int(str(n)) == n`. */
  lemma {:induction false} DecimalRoundTrip(n: nat)
    ensures DigitsValue(Decimal(n)) == n
  {
    if n >= 10 {
      var ds := Decimal(n);
      assert ds[..|ds| - 1] == Decimal(n / 10);
      DecimalRoundTrip(n / 10);
    }
  }

  /** The digit run at the head of `ds + rest` is `ds` when `rest` does not continue it. */
  lemma {:induction false} LeadingDigitsOfNumeral(ds: string, rest: string)
    requires AllDigits(ds)
    requires rest == [] || !IsDigit(rest[0])
    ensures LeadingDigits(ds + rest) == ds
  {
    if ds == [] {
      assert ds + rest == rest;
    } else {
      assert (ds + rest)[1..] == ds[1..] + rest;
      LeadingDigitsOfNumeral(ds[1..], rest);
    }
  }

  // ---------------------------------------------------------------------------
  // re.match(r'[A-Za-z]+.+', s)

  /** The text before the first newline. */
  function FirstLine(s: string): (r: string)
    ensures r <= s && '\n' !in r
    ensures |r| == |s| || s[|r|] == '\n'
  {
    if s == [] || s[0] == '\n' then [] else [s[0]] + FirstLine(s[1..])
  }

  /** The text `re.match(r'[A-Za-z]+.+', s)` matches, if any: the whole first line,
      when it starts with a letter and has at least two characters. */
  function MatchName(s: string): Option<string>
  {
    var line := FirstLine(s);
    if |line| >= 2 && IsLetter(s[0]) then Some(line) else None
  }

  /** The match succeeds exactly when some prefix is in the pattern, and it is the longest such prefix. */
  lemma MatchNameIsLongestMatch(s: string)
    ensures MatchName(s).Some? <==> exists k | 0 <= k <= |s| :: NamePattern(s[..k])
    ensures MatchName(s).Some? ==>
      var m := MatchName(s).value;
      && m <= s && NamePattern(m)
      && forall k | |m| < k <= |s| :: !NamePattern(s[..k])
  {
    var line := FirstLine(s);
    if MatchName(s).Some? {
      assert AllLetters(line[..1]);
      assert line[1..] <= s[1..];
      assert NamePattern(line);
      assert s[..|line|] == line;
      forall k | |line| < k <= |s| ensures !NamePattern(s[..k]) {
        var w := s[..k];
        forall a | 1 <= a < |w| ensures !AllLetters(w[..a]) || '\n' in w[a..] {
          if |line| < a {
            assert w[..a][|line|] == '\n';
          } else {
            assert w[a..][|line| - a] == '\n';
          }
        }
      }
    } else {
      forall k | 0 <= k <= |s| ensures !NamePattern(s[..k]) {
        var w := s[..k];
        forall a | 1 <= a < |w| ensures !AllLetters(w[..a]) || '\n' in w[a..] {
          if IsLetter(s[0]) {
            assert FirstLine(s) == [s[0]] + FirstLine(s[1..]);
            assert s[1] == '\n';
            if a == 1 { assert w[a..][0] == '\n'; } else { assert w[..a][1] == '\n'; }
          } else {
            assert w[..a][0] == s[0];
          }
        }
      }
    }
  }

  /** The first line of `line + rest` is `line` when `rest` starts a new line. */
  lemma {:induction false} FirstLineOf(line: string, rest: string)
    requires '\n' !in line
    requires rest == [] || rest[0] == '\n'
    ensures FirstLine(line + rest) == line
  {
    if line == [] {
      assert line + rest == rest;
    } else {
      assert (line + rest)[1..] == line[1..] + rest;
      FirstLineOf(line[1..], rest);
    }
  }

  // ---------------------------------------------------------------------------
  // str.strip()

  /** `s.lstrip()` */
  function StripStart(s: string): (r: string)
    ensures r == [] || !IsSpace(r[0])
  {
    if |s| > 0 && IsSpace(s[0]) then StripStart(s[1..]) else s
  }

  /** `s.rstrip()` */
  function StripEnd(s: string): (r: string)
    ensures r == [] || !IsSpace(r[|r| - 1])
    ensures |r| > 0 ==> |s| > 0 && r[0] == s[0]
  {
    if |s| > 0 && IsSpace(s[|s| - 1]) then StripEnd(s[..|s| - 1]) else s
  }

  /** `s.strip()`: `s` with its leading and its trailing whitespace taken off. */
  function Strip(s: string): (r: string)
    ensures r == [] || (!IsSpace(r[0]) && !IsSpace(r[|r| - 1]))
  {
    StripEnd(StripStart(s))
  }

  /** `lstrip` removes a run of whitespace from the front and nothing else. */
  lemma {:induction false} StripStartRemovesSpace(s: string)
    ensures |StripStart(s)| <= |s|
    ensures StripStart(s) == s[|s| - |StripStart(s)|..]
    ensures AllSpace(s[..|s| - |StripStart(s)|])
  {
    if |s| > 0 && IsSpace(s[0]) {
      StripStartRemovesSpace(s[1..]);
      var k := |s| - |StripStart(s)|;
      assert s[1..][k - 1..] == s[k..];
      assert AllSpace(s[1..][..k - 1]);
      forall i | 0 <= i < k ensures IsSpace(s[..k][i]) {
        if i == 0 {
          assert s[..k][0] == s[0];
        } else {
          assert s[..k][i] == s[1..][..k - 1][i - 1];
        }
      }
    }
  }

  /** `rstrip` removes a run of whitespace from the back and nothing else. */
  lemma {:induction false} StripEndRemovesSpace(s: string)
    ensures |StripEnd(s)| <= |s|
    ensures StripEnd(s) == s[..|StripEnd(s)|]
    ensures AllSpace(s[|StripEnd(s)|..])
  {
    if |s| > 0 && IsSpace(s[|s| - 1]) {
      var p := s[..|s| - 1];
      StripEndRemovesSpace(p);
      var k := |StripEnd(s)|;
      assert p[..k] == s[..k];
      forall i | 0 <= i < |s| - k ensures IsSpace(s[k..][i]) {
        if k + i < |s| - 1 { assert s[k..][i] == p[k..][i]; }
      }
    }
  }

  /** `strip` keeps a slice of its input and drops only whitespace around it. */
  lemma StripIsSlice(s: string)
    ensures exists i, j | 0 <= i <= j <= |s| ::
      AllSpace(s[..i]) && AllSpace(s[j..]) && Strip(s) == s[i..j]
    ensures forall c | c in Strip(s) :: c in s
  {
    var t := StripStart(s);
    StripStartRemovesSpace(s);
    StripEndRemovesSpace(t);
    var i := |s| - |t|;
    var j := i + |StripEnd(t)|;
    assert t == s[i..];
    assert t[..|StripEnd(t)|] == s[i..j];
    assert t[|StripEnd(t)|..] == s[j..];
    assert AllSpace(s[..i]);
    assert AllSpace(s[j..]);
    assert Strip(s) == StripEnd(t) == s[i..j];
    forall c | c in Strip(s) ensures c in s {
      var k :| 0 <= k < |s[i..j]| && s[i..j][k] == c;
      assert s[i + k] == c;
    }
  }

  /** Stripping a string that has no whitespace at either end leaves it as it is. */
  lemma StripTrimmed(s: string)
    requires s == [] || (!IsSpace(s[0]) && !IsSpace(s[|s| - 1]))
    ensures Strip(s) == s
  {
  }

  // ---------------------------------------------------------------------------
  // str.replace(pat, '')

  /** `s.replace(c, '')` for one character `c`. */
  function RemoveChar(s: string, c: char): (r: string)
    ensures c !in r
    ensures c !in s ==> r == s
  {
    if s == [] then []
    else (if s[0] == c then [] else [s[0]]) + RemoveChar(s[1..], c)
  }

  /** Removal works character by character: it distributes over concatenation ... */
  lemma {:induction false} RemoveCharAppend(a: string, b: string, c: char)
    ensures RemoveChar(a + b, c) == RemoveChar(a, c) + RemoveChar(b, c)
  {
    if a == [] {
      assert a + b == b;
    } else {
      var h := if a[0] == c then [] else [a[0]];
      calc {
        RemoveChar(a + b, c);
      == { assert [a[0]] + (a[1..] + b) == a + b; RemoveCharCons(a[0], a[1..] + b, c); }
        h + RemoveChar(a[1..] + b, c);
      == { RemoveCharAppend(a[1..], b, c); }
        h + (RemoveChar(a[1..], c) + RemoveChar(b, c));
      ==
        (h + RemoveChar(a[1..], c)) + RemoveChar(b, c);
      == { assert [a[0]] + a[1..] == a; RemoveCharCons(a[0], a[1..], c); }
        RemoveChar(a, c) + RemoveChar(b, c);
      }
    }
  }

  /** One step of the removal. */
  lemma RemoveCharCons(x: char, s: string, c: char)
    ensures RemoveChar([x] + s, c) == (if x == c then [] else [x]) + RemoveChar(s, c)
  {
    assert ([x] + s)[1..] == s;
  }

  /** ... and on one character deletes it when it is `c` and keeps it otherwise. */
  lemma RemoveCharSingle(x: char, c: char)
    ensures RemoveChar([x], c) == (if x == c then [] else [x])
  {
  }

  /** Removing a character other than the last one keeps the last one in place. */
  lemma {:induction false} RemoveCharKeepsLast(s: string, c: char)
    requires |s| > 0 && s[|s| - 1] != c
    ensures |RemoveChar(s, c)| > 0 && RemoveChar(s, c)[|RemoveChar(s, c)| - 1] == s[|s| - 1]
  {
    if |s| > 1 {
      RemoveCharKeepsLast(s[1..], c);
    }
  }

  /** `s.replace(pat, '')` for a non-empty `pat`: occurrences are found from the left,
      without overlap, and deleted. */
  function RemoveAll(s: string, pat: string): (r: string)
    requires |pat| > 0
    ensures |r| <= |s|
    decreases |s|
  {
    if s == [] then []
    else if pat <= s then RemoveAll(s[|pat|..], pat)
    else [s[0]] + RemoveAll(s[1..], pat)
  }

  /** Deleting occurrences of a pattern introduces no character that was not there. */
  lemma {:induction false} RemoveAllKeepsChars(s: string, pat: string)
    requires |pat| > 0
    ensures forall x | x in RemoveAll(s, pat) :: x in s
    decreases |s|
  {
    if s == [] {
    } else if pat <= s {
      RemoveAllKeepsChars(s[|pat|..], pat);
      forall x | x in RemoveAll(s, pat) ensures x in s {
        assert x in s[|pat|..];
        var k :| 0 <= k < |s[|pat|..]| && s[|pat|..][k] == x;
        assert s[|pat| + k] == x;
      }
    } else {
      RemoveAllKeepsChars(s[1..], pat);
      forall x | x in RemoveAll(s, pat) ensures x in s {
        if x != s[0] {
          assert x in RemoveAll(s[1..], pat);
          var k :| 0 <= k < |s[1..]| && s[1..][k] == x;
          assert s[1 + k] == x;
        }
      }
    }
  }

  // ---------------------------------------------------------------------------
  // sub in s

  /** Python's `sub in s` for strings. */
  function Contains(s: string, sub: string): bool
    decreases |s|
  {
    if sub <= s then true else if s == [] then false else Contains(s[1..], sub)
  }

  /** `sub` occurs in `s` starting at position `i`. */
  predicate OccursAt(s: string, sub: string, i: int) {
    0 <= i && i + |sub| <= |s| && s[i..i + |sub|] == sub
  }

  lemma SliceOfTail(s: string, i: int, n: nat)
    requires 0 < i && i + n <= |s|
    ensures s[1..][i - 1..i - 1 + n] == s[i..i + n]
  {
    var a, b := s[1..][i - 1..i - 1 + n], s[i..i + n];
    assert forall j | 0 <= j < n :: a[j] == b[j];
  }

  /** `sub in s` holds exactly when `sub` occurs in `s` at some position. */
  lemma {:induction false} ContainsIsOccurrence(s: string, sub: string)
    ensures Contains(s, sub) <==> exists i :: OccursAt(s, sub, i)
  {
    if sub <= s {
      assert OccursAt(s, sub, 0);
    } else if s != [] {
      ContainsIsOccurrence(s[1..], sub);
      if Contains(s[1..], sub) {
        var i :| OccursAt(s[1..], sub, i);
        SliceOfTail(s, i + 1, |sub|);
        assert OccursAt(s, sub, i + 1);
      } else {
        forall i ensures !OccursAt(s, sub, i) {
          if 0 < i && i + |sub| <= |s| {
            SliceOfTail(s, i, |sub|);
            assert !OccursAt(s[1..], sub, i - 1);
          }
        }
      }
    } else {
      assert forall i :: !OccursAt(s, sub, i);
    }
  }

  /** Replacing a pattern that does not occur leaves the string unchanged. */
  lemma {:induction false} RemoveAllAbsent(s: string, pat: string)
    requires |pat| > 0 && !Contains(s, pat)
    ensures RemoveAll(s, pat) == s
  {
    if s != [] {
      RemoveAllAbsent(s[1..], pat);
    }
  }

  /** The leftmost occurrence of the pattern is deleted, the text before it is kept as it is,
      and the search resumes after it: with `RemoveAllAbsent`, this is the leftmost
      non-overlapping deletion of `str.replace`. */
  lemma {:induction false} RemoveAllFirstOccurrence(s: string, pat: string, i: nat)
    requires |pat| > 0 && OccursAt(s, pat, i)
    requires forall j | 0 <= j < i :: !OccursAt(s, pat, j)
    ensures RemoveAll(s, pat) == s[..i] + RemoveAll(s[i + |pat|..], pat)
    decreases i
  {
    PrefixIsOccurrence(s, pat);
    if i == 0 {
      assert s[..0] == [];
    } else {
      var t, rest := s[1..], s[i + |pat|..];
      calc {
        RemoveAll(s, pat);
      == { assert !OccursAt(s, pat, 0); RemoveAllKeepsHead(s, pat); }
        [s[0]] + RemoveAll(t, pat);
      == { SliceOfTail(s, i, |pat|);
           NoEarlierOccurrenceInTail(s, pat, i);
           RemoveAllFirstOccurrence(t, pat, i - 1);
           assert t[i - 1 + |pat|..] == rest; }
        [s[0]] + (t[..i - 1] + RemoveAll(rest, pat));
      ==
        ([s[0]] + t[..i - 1]) + RemoveAll(rest, pat);
      == { assert [s[0]] + t[..i - 1] == s[..i]; }
        s[..i] + RemoveAll(rest, pat);
      }
    }
  }

  /** Being a prefix is occurring at position 0. */
  lemma PrefixIsOccurrence(s: string, pat: string)
    ensures pat <= s <==> OccursAt(s, pat, 0)
  {
    if |pat| <= |s| {
      assert s[0..|pat|] == s[..|pat|];
    }
  }

  /** A text that does not start with the pattern keeps its first character. */
  lemma RemoveAllKeepsHead(s: string, pat: string)
    requires |pat| > 0 && s != [] && !(pat <= s)
    ensures RemoveAll(s, pat) == [s[0]] + RemoveAll(s[1..], pat)
  {
  }

  /** Occurrences in the tail are occurrences in the text, one position on. */
  lemma NoEarlierOccurrenceInTail(s: string, pat: string, i: nat)
    requires 0 < i < |s| && forall j | 0 <= j < i :: !OccursAt(s, pat, j)
    ensures forall j | 0 <= j < i - 1 :: !OccursAt(s[1..], pat, j)
  {
    forall j | 0 <= j < i - 1 && j + |pat| <= |s| - 1 ensures !OccursAt(s[1..], pat, j) {
      SliceOfTail(s, j + 1, |pat|);
      assert !OccursAt(s, pat, j + 1);
    }
  }

  /** A leading occurrence of the pattern is deleted and the rest is processed on. */
  lemma RemoveAllLeading(pat: string, rest: string)
    requires |pat| > 0
    ensures RemoveAll(pat + rest, pat) == RemoveAll(rest, pat)
  {
    assert (pat + rest)[|pat|..] == rest;
  }
}
