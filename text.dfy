/**
 * The Python string primitives the agent relies on: slicing a prefix,
 * `str.split()` with no separator, `str.strip(".,")` and `str.capitalize()`.
 * Each function is followed by the lemma that characterises its result.
 */
module Text {
  import opened Wrappers

  /** `s[:n]`: the first `n` characters of `s`, or all of `s` when it is shorter. */
  function Prefix(s: string, n: nat): (r: string)
    ensures r <= s
    ensures |r| == if |s| <= n then |s| else n
  {
    if |s| <= n then s else s[..n]
  }

  /** `c.isspace()`: the characters on which `str.split()` with no argument separates words. */
  predicate IsSpace(c: char) {
    || c == ' '
    || ('\t' <= c <= '\r')
    || ('\U{1C}' <= c <= '\U{1F}')
    || c == '\U{85}' || c == '\U{A0}' || c == '\U{1680}'
    || ('\U{2000}' <= c <= '\U{200A}')
    || c == '\U{2028}' || c == '\U{2029}' || c == '\U{202F}' || c == '\U{205F}' || c == '\U{3000}'
  }

  predicate AllSpace(s: string) {
    forall k :: 0 <= k < |s| ==> IsSpace(s[k])
  }

  predicate NoSpace(s: string) {
    forall k :: 0 <= k < |s| ==> !IsSpace(s[k])
  }

  /** `s` without its leading whitespace. */
  function DropSpaces(s: string): (r: string)
    ensures |r| <= |s|
  {
    if s == [] || !IsSpace(s[0]) then s else DropSpaces(s[1..])
  }

  /** `DropSpaces` removes a run of whitespace and stops at the first other character. */
  lemma {:induction false} DropSpacesSpec(s: string)
    ensures var r := DropSpaces(s);
      && r == s[|s| - |r|..]
      && AllSpace(s[..|s| - |r|])
      && (r == [] || !IsSpace(r[0]))
  {
    if s != [] && IsSpace(s[0]) {
      DropSpacesSpec(s[1..]);
      var r := DropSpaces(s[1..]);
      assert s[..|s| - |r|] == [s[0]] + s[1..][..|s[1..]| - |r|];
    }
  }

  /** The longest prefix of `s` that holds no whitespace. */
  function TakeWord(s: string): (w: string)
    ensures |w| <= |s|
  {
    if s == [] || IsSpace(s[0]) then [] else [s[0]] + TakeWord(s[1..])
  }

  /** `TakeWord` is a prefix without whitespace, followed by whitespace or by the end. */
  lemma {:induction false} TakeWordSpec(s: string)
    ensures var w := TakeWord(s);
      && w <= s && NoSpace(w)
      && (|w| == |s| || IsSpace(s[|w|]))
  {
    if s != [] && !IsSpace(s[0]) {
      TakeWordSpec(s[1..]);
      var w := TakeWord(s[1..]);
      assert NoSpace([s[0]] + w) by {
        forall k | 0 <= k < |w| + 1 ensures !IsSpace(([s[0]] + w)[k]) {
          if k > 0 { assert ([s[0]] + w)[k] == w[k - 1]; }
        }
      }
    }
  }

  /**
   * `s.split()[0]` when `s.split()` is not empty: the first maximal run of
   * non-whitespace characters. `None` when `s` holds no word at all.
   */
  function FirstToken(s: string): Option<string> {
    var rest := DropSpaces(s);
    if rest == [] then None else Some(TakeWord(rest))
  }

  /**
   * There is no token exactly when `s` is all whitespace; otherwise the token is
   * a non-empty word that starts after leading whitespace and runs up to the
   * next whitespace or the end of `s`.
   */
  lemma FirstTokenSpec(s: string)
    ensures FirstToken(s).None? <==> AllSpace(s)
    ensures FirstToken(s).Some? ==>
      var t := FirstToken(s).value;
      && t != [] && NoSpace(t)
      && exists i :: 0 <= i <= |s| - |t| && AllSpace(s[..i])
                  && s[i..i + |t|] == t
                  && (i + |t| == |s| || IsSpace(s[i + |t|]))
  {
    DropSpacesSpec(s);
    var rest := DropSpaces(s);
    var i := |s| - |rest|;
    if rest == [] {
      assert s[..|s|] == s;
    } else {
      assert !IsSpace(s[i]);
      TakeWordSpec(rest);
      var w := TakeWord(rest);
      assert s[i..i + |w|] == w;
      assert w != [];
    }
  }

  /** A word followed by whitespace: that word is the first token, whatever follows. */
  lemma FirstTokenOfWord(w: string, c: char, tail: string)
    requires w != [] && NoSpace(w) && IsSpace(c)
    ensures FirstToken(w + [c] + tail) == Some(w)
  {
    var s := w + [c] + tail;
    assert DropSpaces(s) == s;
    TakeWordOfWord(w, c, tail);
  }

  /** A whole word with no whitespace is its own first token. */
  lemma FirstTokenOfWholeWord(w: string)
    requires w != [] && NoSpace(w)
    ensures FirstToken(w) == Some(w)
  {
    assert DropSpaces(w) == w;
    TakeWordWhole(w);
  }

  lemma {:induction false} TakeWordOfWord(w: string, c: char, tail: string)
    requires NoSpace(w) && IsSpace(c)
    ensures TakeWord(w + [c] + tail) == w
  {
    if w != [] {
      assert (w + [c] + tail)[1..] == w[1..] + [c] + tail;
      TakeWordOfWord(w[1..], c, tail);
    }
  }

  lemma {:induction false} TakeWordWhole(w: string)
    requires NoSpace(w)
    ensures TakeWord(w) == w
  {
    if w != [] {
      TakeWordWhole(w[1..]);
    }
  }

  /** The characters `str.strip(".,")` removes. */
  predicate IsDotOrComma(c: char) {
    c == '.' || c == ','
  }

  predicate AllDotsCommas(s: string) {
    forall k :: 0 <= k < |s| ==> IsDotOrComma(s[k])
  }

  function TrimStart(s: string): (r: string)
    ensures |r| <= |s|
  {
    if s == [] || !IsDotOrComma(s[0]) then s else TrimStart(s[1..])
  }

  lemma {:induction false} TrimStartSpec(s: string)
    ensures var r := TrimStart(s);
      && r == s[|s| - |r|..]
      && AllDotsCommas(s[..|s| - |r|])
      && (r == [] || !IsDotOrComma(r[0]))
  {
    if s != [] && IsDotOrComma(s[0]) {
      TrimStartSpec(s[1..]);
      var r := TrimStart(s[1..]);
      assert s[..|s| - |r|] == [s[0]] + s[1..][..|s[1..]| - |r|];
    }
  }

  function TrimEnd(s: string): (r: string)
    ensures |r| <= |s|
  {
    if s == [] || !IsDotOrComma(s[|s| - 1]) then s else TrimEnd(s[..|s| - 1])
  }

  lemma {:induction false} TrimEndSpec(s: string)
    ensures var r := TrimEnd(s);
      && r <= s
      && AllDotsCommas(s[|r|..])
      && (r == [] || !IsDotOrComma(r[|r| - 1]))
  {
    if s != [] && IsDotOrComma(s[|s| - 1]) {
      TrimEndSpec(s[..|s| - 1]);
      var r := TrimEnd(s[..|s| - 1]);
      assert s[|r|..] == s[..|s| - 1][|r|..] + [s[|s| - 1]];
    }
  }

  /** `s.strip(".,")`: what is left once leading and trailing '.' and ',' are removed. */
  function StripDotsCommas(s: string): (r: string)
    ensures |r| <= |s|
  {
    TrimEnd(TrimStart(s))
  }

  /**
   * The stripped word neither starts nor ends with '.' or ',', and it is the
   * middle of `s` between a run of dots and commas on either side.
   */
  lemma StripDotsCommasSpec(s: string)
    ensures var r := StripDotsCommas(s);
      && (r == [] || (!IsDotOrComma(r[0]) && !IsDotOrComma(r[|r| - 1])))
      && exists i :: 0 <= i <= |s| - |r| && AllDotsCommas(s[..i])
                  && s[i..i + |r|] == r && AllDotsCommas(s[i + |r|..])
  {
    TrimStartSpec(s);
    var m := TrimStart(s);
    TrimEndSpec(m);
    var r := TrimEnd(m);
    var i := |s| - |m|;
    assert s[i..i + |r|] == r by {
      assert s[i..] == m;
    }
    assert AllDotsCommas(s[i + |r|..]) by {
      assert s[i + |r|..] == m[|r|..];
    }
  }

  /** A word that neither starts nor ends with '.' or ',' is left as it is. */
  lemma StripDotsCommasKeeps(s: string)
    requires s == [] || (!IsDotOrComma(s[0]) && !IsDotOrComma(s[|s| - 1]))
    ensures StripDotsCommas(s) == s
  {
  }

  /** ASCII upper case of one character; every other character is left alone. */
  function Upper(c: char): char {
    if 'a' <= c <= 'z' then (c as int - 32) as char else c
  }

  /** ASCII lower case of one character; every other character is left alone. */
  function Lower(c: char): char {
    if 'A' <= c <= 'Z' then (c as int + 32) as char else c
  }

  /** Every character of `s` in lower case. */
  function LowerAll(s: string): (r: string)
    ensures |r| == |s|
  {
    if s == [] then [] else [Lower(s[0])] + LowerAll(s[1..])
  }

  /** `s.capitalize()`: the first character in upper case, all the others in lower case. */
  function Capitalize(s: string): (r: string)
    ensures |r| == |s|
  {
    if s == [] then [] else [Upper(s[0])] + LowerAll(s[1..])
  }

  lemma {:induction false} LowerAllSpec(s: string)
    ensures forall k :: 0 <= k < |s| ==> LowerAll(s)[k] == Lower(s[k])
  {
    if s != [] {
      LowerAllSpec(s[1..]);
      assert forall k :: 0 < k < |s| ==> LowerAll(s)[k] == LowerAll(s[1..])[k - 1];
    }
  }

  /** The first character of a capitalized word is in upper case and every other one in lower case. */
  lemma CapitalizeSpec(s: string)
    ensures |s| > 0 ==> Capitalize(s)[0] == Upper(s[0])
    ensures forall k :: 0 < k < |s| ==> Capitalize(s)[k] == Lower(s[k])
  {
    if s != [] {
      LowerAllSpec(s[1..]);
      assert forall k :: 0 < k < |s| ==> Capitalize(s)[k] == LowerAll(s[1..])[k - 1];
    }
  }

  lemma {:induction false} LowerAllIdempotent(s: string)
    ensures LowerAll(LowerAll(s)) == LowerAll(s)
  {
    if s != [] {
      LowerAllIdempotent(s[1..]);
      assert LowerAll(s)[1..] == LowerAll(s[1..]);
    }
  }

  lemma {:induction false} LowerAllKeeps(s: string)
    requires forall k :: 0 <= k < |s| ==> !('A' <= s[k] <= 'Z')
    ensures LowerAll(s) == s
  {
    if s != [] {
      LowerAllKeeps(s[1..]);
    }
  }

  /** A word already in capitalized form is left as it is. */
  lemma CapitalizeKeeps(s: string)
    requires s != [] ==> !('a' <= s[0] <= 'z')
    requires forall k :: 1 <= k < |s| ==> !('A' <= s[k] <= 'Z')
    ensures Capitalize(s) == s
  {
    if s != [] {
      LowerAllKeeps(s[1..]);
    }
  }

  /** Capitalizing a capitalized word changes nothing. */
  lemma CapitalizeIdempotent(s: string)
    ensures Capitalize(Capitalize(s)) == Capitalize(s)
  {
    if s != [] {
      LowerAllIdempotent(s[1..]);
      assert Capitalize(s)[1..] == LowerAll(s[1..]);
    }
  }

  /** Changing the case of a character never turns it into, or out of, whitespace, a dot or a comma. */
  lemma CaseKeepsClass(c: char)
    ensures IsSpace(Upper(c)) == IsSpace(c) && IsSpace(Lower(c)) == IsSpace(c)
    ensures IsDotOrComma(Upper(c)) == IsDotOrComma(c) && IsDotOrComma(Lower(c)) == IsDotOrComma(c)
  {
  }
}
