/** Character and string helpers: the parts of Python's `str` API the recorders use
    (`translate` with `string.punctuation`, `lower`, `strip`, `in`, `join`, `split`),
    restricted to ASCII. */
module Text {

  /** Python's `string.punctuation`. */
  const Punctuation: string := "!\"#$%&'()*+,-./:;<=>?@[\\]^_`{|}~"

  /** The ASCII characters `str.strip()` removes by default: space, tab, the line breaks, the
      vertical tab and form feed, and the four separators 0x1C-0x1F. */
  const Whitespace: set<char> := {' ', '\t', '\n', '\r', '\U{0B}', '\U{0C}', '\U{1C}', '\U{1D}', '\U{1E}', '\U{1F}'}

  /** Membership in `Punctuation`, by its four ASCII ranges. */
  predicate IsPunctuation(c: char)
  {
    ('!' <= c <= '/') || (':' <= c <= '@') || ('[' <= c <= '`') || ('{' <= c <= '~')
  }

  lemma PunctuationRanges()
    ensures forall i :: 0 <= i < |Punctuation| ==> IsPunctuation(Punctuation[i])
    ensures |Punctuation| == 32
  {
  }

  predicate IsUpper(c: char) { 'A' <= c <= 'Z' }

  function LowerChar(c: char): (d: char)
    ensures !IsUpper(d)
    ensures IsUpper(c) ==> d as int == c as int + 32
    ensures !IsUpper(c) ==> d == c
  {
    if IsUpper(c) then (c as int + 32) as char else c
  }

  /** `s.lower()` on ASCII letters. */
  function Lower(s: string): (r: string)
    ensures |r| == |s|
  {
    if s == [] then [] else [LowerChar(s[0])] + Lower(s[1..])
  }

  lemma {:induction false} LowerAt(s: string)
    ensures forall i :: 0 <= i < |s| ==> Lower(s)[i] == LowerChar(s[i])
  {
    if s != [] {
      LowerAt(s[1..]);
    }
  }

  /** `s.translate(str.maketrans('', '', string.punctuation))`. */
  function RemovePunctuation(s: string): string
  {
    if s == [] then []
    else if IsPunctuation(s[0]) then RemovePunctuation(s[1..])
    else [s[0]] + RemovePunctuation(s[1..])
  }

  /** The result is no longer than `s` and holds no punctuation; a single character is
      dropped exactly when it is punctuation; and a string without punctuation is kept. */
  lemma {:induction false} RemovePunctuationShape(s: string)
    ensures var r := RemovePunctuation(s);
      && |r| <= |s|
      && (forall i :: 0 <= i < |r| ==> !IsPunctuation(r[i]))
      && (|s| == 1 ==> r == if IsPunctuation(s[0]) then [] else s)
      && ((forall i :: 0 <= i < |s| ==> !IsPunctuation(s[i])) ==> r == s)
    decreases |s|
  {
    if s != [] {
      RemovePunctuationShape(s[1..]);
      var r := RemovePunctuation(s);
      var r' := RemovePunctuation(s[1..]);
      if !IsPunctuation(s[0]) {
        assert forall i :: 0 < i < |r| ==> r[i] == r'[i - 1];
      }
      if |s| == 1 {
        assert s[1..] == [];
      }
      if forall i :: 0 <= i < |s| ==> !IsPunctuation(s[i]) {
        assert forall i :: 0 <= i < |s[1..]| ==> s[1..][i] == s[i + 1];
        assert s == [s[0]] + s[1..];
      }
    }
  }

  /** Removing punctuation works character by character: on a concatenation it is the
      concatenation of the two results, so every other character is kept, in order. */
  lemma {:induction false} RemovePunctuationConcat(s: string, t: string)
    ensures RemovePunctuation(s + t) == RemovePunctuation(s) + RemovePunctuation(t)
    decreases |s|
  {
    if s == [] {
      assert s + t == t;
    } else {
      var u := s + t;
      assert u != [] && u[0] == s[0] && u[1..] == s[1..] + t;
      RemovePunctuationConcat(s[1..], t);
      if IsPunctuation(s[0]) {
        assert RemovePunctuation(u) == RemovePunctuation(s[1..] + t);
      } else {
        calc {
          RemovePunctuation(u);
          [s[0]] + RemovePunctuation(s[1..] + t);
          [s[0]] + (RemovePunctuation(s[1..]) + RemovePunctuation(t));
          ([s[0]] + RemovePunctuation(s[1..])) + RemovePunctuation(t);
        }
      }
    }
  }

  /** `w in s` for strings: `w` occurs in `s` as a contiguous substring. */
  function Contains(s: string, w: string): (b: bool)
    decreases |s|
  {
    if |w| > |s| then false
    else if s[..|w|] == w then true
    else Contains(s[1..], w)
  }

  ghost predicate OccursAt(s: string, w: string, i: int)
  {
    0 <= i && i + |w| <= |s| && s[i..i + |w|] == w
  }

  lemma {:induction false} ContainsIff(s: string, w: string)
    ensures Contains(s, w) <==> exists i :: OccursAt(s, w, i)
    decreases |s|
  {
    if |w| > |s| {
    } else if s[..|w|] == w {
      assert OccursAt(s, w, 0);
    } else {
      ContainsIff(s[1..], w);
      if Contains(s[1..], w) {
        var i :| OccursAt(s[1..], w, i);
        assert s[1..][i..i + |w|] == s[i + 1..i + 1 + |w|];
        assert OccursAt(s, w, i + 1);
      } else {
        forall i | OccursAt(s, w, i) ensures 1 <= i && OccursAt(s[1..], w, i - 1) {
          if 1 <= i {
            assert s[1..][i - 1..i - 1 + |w|] == s[i..i + |w|];
          }
        }
      }
    }
  }

  /** `any(w in s for w in words)`. */
  function ContainsAny(s: string, words: seq<string>): (b: bool)
    ensures b <==> exists k :: 0 <= k < |words| && Contains(s, words[k])
  {
    if words == [] then false else Contains(s, words[0]) || ContainsAny(s, words[1..])
  }

  /** Drop leading characters that belong to `chars`. */
  function TrimLeft(s: string, chars: set<char>): (r: string)
    ensures |r| <= |s| && r == s[|s| - |r|..]
    ensures r != [] ==> r[0] !in chars
    ensures forall i :: 0 <= i < |s| - |r| ==> s[i] in chars
  {
    if s != [] && s[0] in chars then TrimLeft(s[1..], chars) else s
  }

  /** Drop trailing characters that belong to `chars`. */
  function TrimRight(s: string, chars: set<char>): (r: string)
    ensures |r| <= |s| && r == s[..|r|]
    ensures r != [] ==> r[|r| - 1] !in chars
    ensures forall i :: |r| <= i < |s| ==> s[i] in chars
  {
    if s != [] && s[|s| - 1] in chars then TrimRight(s[..|s| - 1], chars) else s
  }

  /** `s.strip(chars)`. */
  function StripChars(s: string, chars: set<char>): string
  {
    TrimRight(TrimLeft(s, chars), chars)
  }

  /** Where the result of `s.strip(chars)` starts inside `s`. */
  function StripOffset(s: string, chars: set<char>): nat
  {
    |s| - |TrimLeft(s, chars)|
  }

  /** `s.strip(chars)` removes characters of `chars` from both ends and nothing else: the result
      sits inside `s`, everything around it belongs to `chars`, and it neither starts nor ends
      with one of them. */
  lemma StripCharsShape(s: string, chars: set<char>)
    ensures StripOffset(s, chars) + |StripChars(s, chars)| <= |s|
    ensures s[StripOffset(s, chars)..StripOffset(s, chars) + |StripChars(s, chars)|] == StripChars(s, chars)
    ensures forall i :: 0 <= i < StripOffset(s, chars) ==> s[i] in chars
    ensures forall i :: StripOffset(s, chars) + |StripChars(s, chars)| <= i < |s| ==> s[i] in chars
    ensures StripChars(s, chars) != [] ==>
              StripChars(s, chars)[0] !in chars && StripChars(s, chars)[|StripChars(s, chars)| - 1] !in chars
  {
    var l := TrimLeft(s, chars);
    var r := TrimRight(l, chars);
    TrimBoth(s, l, r, chars);
    if r != [] {
      assert r[0] == l[0];
    }
  }

  /** Trimming `s` on the left to `l` and then `l` on the right to `r` leaves `r` inside `s`,
      with only characters of `chars` after it. */
  lemma TrimBoth(s: string, l: string, r: string, chars: set<char>)
    requires |l| <= |s| && l == s[|s| - |l|..]
    requires |r| <= |l| && r == l[..|r|]
    requires forall i :: |r| <= i < |l| ==> l[i] in chars
    ensures s[|s| - |l|..|s| - |l| + |r|] == r
    ensures forall i :: |s| - |l| + |r| <= i < |s| ==> s[i] in chars
  {
    var k := |s| - |l|;
    assert s[k..k + |r|] == l[..|r|];
    forall i | k + |r| <= i < |s| ensures s[i] in chars {
      assert s[i] == l[i - k];
    }
  }

  /** A string that neither starts nor ends with one of `chars` is left as it is. */
  lemma StripCharsKeeps(s: string, chars: set<char>)
    requires s != [] && s[0] !in chars && s[|s| - 1] !in chars
    ensures StripChars(s, chars) == s
  {
    assert TrimLeft(s, chars) == s;
    assert TrimRight(s, chars) == s;
  }

  /** `s.strip()`. */
  function Strip(s: string): string
  {
    StripChars(s, Whitespace)
  }

  /** Stripping a stripped string changes nothing. */
  lemma StripIdempotent(s: string)
    ensures Strip(Strip(s)) == Strip(s)
  {
    var r := Strip(s);
    StripCharsShape(s, Whitespace);
    if r != [] {
      StripCharsKeeps(r, Whitespace);
    }
  }

  /** A stripped string neither starts nor ends with whitespace. */
  lemma StripEnds(s: string)
    ensures Strip(s) != [] ==> Strip(s)[0] !in Whitespace && Strip(s)[|Strip(s)| - 1] !in Whitespace
  {
    StripCharsShape(s, Whitespace);
  }

  /** `sep.join(parts)`. */
  function Join(parts: seq<string>, sep: string): string
  {
    if parts == [] then ""
    else if |parts| == 1 then parts[0]
    else parts[0] + sep + Join(parts[1..], sep)
  }
}

module TextSplit {
  import opened Text

  /** `s.split(c)` for a one-character separator. */
  function Split(s: string, c: char): (r: seq<string>)
    ensures |r| >= 1
    decreases |s|
  {
    if s == [] then [""]
    else
      var rest := Split(s[1..], c);
      if s[0] == c then [""] + rest else [[s[0]] + rest[0]] + rest[1..]
  }

  lemma {:induction false} SplitPlain(a: string, c: char)
    requires c !in a
    ensures Split(a, c) == [a]
    decreases |a|
  {
    if a != [] {
      SplitPlain(a[1..], c);
      assert [a[0]] + a[1..] == a;
    }
  }

  lemma {:induction false} SplitAfterPart(a: string, c: char, b: string)
    requires c !in a
    ensures Split(a + [c] + b, c) == [a] + Split(b, c)
    decreases |a|
  {
    if a == [] {
      assert a + [c] + b == [c] + b;
      assert ([c] + b)[1..] == b;
    } else {
      var s := a + [c] + b;
      assert s[1..] == a[1..] + [c] + b;
      SplitAfterPart(a[1..], c, b);
      assert [a[0]] + a[1..] == a;
    }
  }

  /** Splitting a comma-joined list recovers it, provided no part contains the separator. */
  lemma {:induction false} SplitJoin(parts: seq<string>, c: char)
    requires |parts| >= 1
    requires forall i :: 0 <= i < |parts| ==> c !in parts[i]
    ensures Split(Join(parts, [c]), c) == parts
    decreases |parts|
  {
    if |parts| == 1 {
      SplitPlain(parts[0], c);
    } else {
      SplitJoin(parts[1..], c);
      SplitAfterPart(parts[0], c, Join(parts[1..], [c]));
      assert [parts[0]] + parts[1..] == parts;
    }
  }
}
