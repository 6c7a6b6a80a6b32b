/** The two helpers of Spring's `StringUtils` that `addGroup` applies to a
    group's name and description: `capitalize` (the first character upper
    case) and `trimWhitespace` (leading and trailing whitespace removed). */
module Strings {
  /** `Character.isWhitespace`: the Unicode space, line and paragraph
      separators other than the non-breaking ones, and the control
      characters U+0009 to U+000D and U+001C to U+001F. */
  predicate IsWhitespace(c: char)
  {
    || c == ' ' || '\t' <= c <= '\r' || '\U{1C}' <= c <= '\U{1F}'
    || c == '\U{1680}' || ('\U{2000}' <= c <= '\U{200A}' && c != '\U{2007}')
    || c == '\U{2028}' || c == '\U{2029}' || c == '\U{205F}' || c == '\U{3000}'
  }

  /** `Character.toUpperCase` on the ASCII letters; every other character is
      left as it is. */
  function Upper(c: char): char
  {
    if 'a' <= c <= 'z' then (c as int - 32) as char else c
  }

  /** `capitalize`: the first character in upper case, the rest unchanged. */
  function Capitalize(s: string): (r: string)
    ensures |r| == |s|
    ensures s != [] ==> r[0] == Upper(s[0]) && r[1..] == s[1..]
  {
    if s == [] then s else [Upper(s[0])] + s[1..]
  }

  /** The index of the first character at or after i that is not
      whitespace, |s| if there is none: `trimWhitespace`'s first loop. */
  function SkipLeading(s: string, i: nat): (b: nat)
    requires i <= |s|
    ensures i <= b <= |s|
    ensures forall k | i <= k < b :: IsWhitespace(s[k])
    ensures b == |s| || !IsWhitespace(s[b])
    decreases |s| - i
  {
    if i < |s| && IsWhitespace(s[i]) then SkipLeading(s, i + 1) else i
  }

  /** The end of s[b..e] once trailing whitespace is dropped:
      `trimWhitespace`'s second loop. */
  function SkipTrailing(s: string, b: nat, e: nat): (e': nat)
    requires b <= e <= |s|
    ensures b <= e' <= e
    ensures forall k | e' <= k < e :: IsWhitespace(s[k])
    ensures e' == b || !IsWhitespace(s[e' - 1])
  {
    if e > b && IsWhitespace(s[e - 1]) then SkipTrailing(s, b, e - 1) else e
  }

  /** `trimWhitespace`: the slice between the leading and the trailing
      whitespace. */
  function Trim(s: string): string
  {
    var b := SkipLeading(s, 0);
    s[b..SkipTrailing(s, b, |s|)]
  }

  /** What `addGroup` does to a name, as written: capitalised first, trimmed
      after. */
  function NormaliseAsWritten(s: string): string
  {
    Trim(Capitalize(s))
  }

  /** What it evidently means to do: trimmed first, so that the character
      that ends up first is the one capitalised. */
  function Normalise(s: string): string
  {
    Capitalize(Trim(s))
  }

  /** The trimmed string is the slice s[b..e] with whitespace on neither end,
      and only whitespace was cut off either side of it. */
  lemma TrimEnds(s: string) returns (b: nat, e: nat)
    ensures b <= e <= |s| && Trim(s) == s[b..e]
    ensures b == e || (!IsWhitespace(s[b]) && !IsWhitespace(s[e - 1]))
    ensures forall k | 0 <= k < b :: IsWhitespace(s[k])
    ensures forall k | e <= k < |s| :: IsWhitespace(s[k])
  {
    b := SkipLeading(s, 0);
    e := SkipTrailing(s, b, |s|);
    if b == e {
      e := |s|;
      b := |s|;
    }
  }

  /** Trimming twice is trimming once. */
  lemma TrimIdempotent(s: string)
    ensures Trim(Trim(s)) == Trim(s)
  {
    var b, e := TrimEnds(s);
    var r := Trim(s);
    if r != [] {
      assert r[0] == s[b] && r[|r| - 1] == s[e - 1];
      assert SkipLeading(r, 0) == 0;
      assert SkipTrailing(r, 0, |r|) == |r|;
    }
  }

  /** An upper-cased character is whitespace exactly when the character is. */
  lemma UpperKeepsWhitespace(c: char)
    ensures IsWhitespace(Upper(c)) <==> IsWhitespace(c)
  {
  }

  /** The corrected normalisation leaves no whitespace on either end and
      never a lower-case ASCII letter in front. */
  lemma NormaliseCapitalises(s: string)
    ensures var r := Normalise(s);
      && (r == [] || (!IsWhitespace(r[0]) && !IsWhitespace(r[|r| - 1]) && !('a' <= r[0] <= 'z')))
  {
    var b, e := TrimEnds(s);
    var t := Trim(s);
    if t != [] {
      assert t[0] == s[b] && t[|t| - 1] == s[e - 1];
      UpperKeepsWhitespace(t[0]);
      if |t| > 1 {
        assert Normalise(s)[|t| - 1] == t[|t| - 1];
      }
    }
  }

  /** What the code as written stores has no whitespace at either end. */
  lemma AsWrittenTrimmed(s: string)
    ensures var r := NormaliseAsWritten(s);
      r == [] || (!IsWhitespace(r[0]) && !IsWhitespace(r[|r| - 1]))
  {
    var b, e := TrimEnds(Capitalize(s));
  }

  /** A string of whitespace only normalises to the empty string, in either
      order: `capitalize` leaves a whitespace character whitespace, and
      `trimWhitespace` removes all of it. */
  lemma AllWhitespaceNormalisesEmpty(s: string)
    requires forall k | 0 <= k < |s| :: IsWhitespace(s[k])
    ensures NormaliseAsWritten(s) == [] && Normalise(s) == []
  {
    var b, e := TrimEnds(s);
    if s != [] {
      UpperKeepsWhitespace(s[0]);
      var c := Capitalize(s);
      assert forall k | 0 <= k < |c| :: IsWhitespace(c[k]) by {
        forall k | 0 <= k < |c| ensures IsWhitespace(c[k]) {
          if k > 0 {
            assert c[k] == c[1..][k - 1] == s[1..][k - 1] == s[k];
          }
        }
      }
      var b', e' := TrimEnds(c);
    }
  }

  /** Neither order lower-cases the rest of the string: "marTHa" comes out as
      "MarTHa", not in title case. */
  lemma NoTitleCase()
    ensures NormaliseAsWritten("marTHa") == "MarTHa"
    ensures Normalise("marTHa") == "MarTHa"
  {
    AgreeWithoutLeadingWhitespace("marTHa");
    var c := Capitalize("marTHa");
    assert c == "MarTHa";
    assert SkipLeading(c, 0) == 0;
    assert SkipTrailing(c, 0, |c|) == |c|;
  }

  /** Normalising twice is normalising once. */
  lemma NormaliseIdempotent(s: string)
    ensures Normalise(Normalise(s)) == Normalise(s)
  {
    NormaliseCapitalises(s);
    var r := Normalise(s);
    if r != [] {
      assert SkipLeading(r, 0) == 0;
      assert SkipTrailing(r, 0, |r|) == |r|;
      assert Trim(r) == r;
      assert Upper(r[0]) == r[0];
      assert Capitalize(r) == r;
    }
  }

  /** Two strings that differ at most in a first character that is
      whitespace in neither lose the same trailing whitespace. */
  lemma {:induction false} SkipTrailingIgnoresFirst(s: string, c: string, e: nat)
    requires |s| == |c| && 1 <= e <= |s|
    requires !IsWhitespace(s[0]) && !IsWhitespace(c[0]) && s[1..] == c[1..]
    ensures SkipTrailing(s, 0, e) == SkipTrailing(c, 0, e)
  {
    if e > 1 {
      assert s[e - 1] == s[1..][e - 2] == c[1..][e - 2] == c[e - 1];
      SkipTrailingIgnoresFirst(s, c, e - 1);
    }
  }

  /** Where the name does not start with whitespace, the code as written and
      the corrected normalisation agree. */
  lemma AgreeWithoutLeadingWhitespace(s: string)
    requires s == [] || !IsWhitespace(s[0])
    ensures NormaliseAsWritten(s) == Normalise(s)
  {
    if s != [] {
      UpperKeepsWhitespace(s[0]);
      var c := Capitalize(s);
      assert SkipLeading(c, 0) == 0 && SkipLeading(s, 0) == 0;
      SkipTrailingIgnoresFirst(s, c, |s|);
      var e := SkipTrailing(s, 0, |s|);
      assert c[0..e] == [Upper(s[0])] + s[1..e];
    }
  }

  /** The code as written leaves a name that starts with a blank in lower
      case: the blank is what `capitalize` sees first, and `trimWhitespace`
      removes it afterwards. The corrected normalisation capitalises it. */
  lemma LeadingWhitespaceDefeatsCapitalize(t: string)
    requires t != [] && 'a' <= t[0] <= 'z' && !IsWhitespace(t[|t| - 1])
    ensures NormaliseAsWritten([' '] + t) == t
    ensures Normalise([' '] + t) == [Upper(t[0])] + t[1..] != t
  {
    var s := [' '] + t;
    assert Capitalize(s) == s;
    assert SkipLeading(s, 1) == 1;
    assert SkipLeading(s, 0) == 1;
    assert SkipTrailing(s, 1, |s|) == |s|;
    assert s[1..] == t;
  }

  /** For instance " chess": stored as "chess", where "Chess" was meant. */
  lemma LeadingWhitespaceExample()
    ensures NormaliseAsWritten(" chess") == "chess"
    ensures Normalise(" chess") == "Chess"
  {
    LeadingWhitespaceDefeatsCapitalize("chess");
    assert [' '] + "chess" == " chess";
  }
}
