/** The string primitives of .NET that the modelled code relies on:
    ordinal case-insensitive comparison, Char.IsWhiteSpace, Trim,
    StartsWith and Split. Case mapping is modelled on ASCII letters. */
module Text {

  /** The upper-case form that StringComparer.OrdinalIgnoreCase compares. */
  function UpperChar(c: char): char
  {
    if 'a' <= c <= 'z' then (c as int - 32) as char else c
  }

  /** The lower-case form produced by String.ToLowerInvariant. */
  function LowerChar(c: char): char
  {
    if 'A' <= c <= 'Z' then (c as int + 32) as char else c
  }

  function Upper(s: string): (r: string)
    ensures |r| == |s|
  {
    seq(|s|, i requires 0 <= i < |s| => UpperChar(s[i]))
  }

  function Lower(s: string): (r: string)
    ensures |r| == |s|
  {
    seq(|s|, i requires 0 <= i < |s| => LowerChar(s[i]))
  }

  /** string.Equals(a, b, StringComparison.OrdinalIgnoreCase) */
  predicate SameName(a: string, b: string)
  {
    Upper(a) == Upper(b)
  }

  /** Names equal ignoring case have the same invariant lower-case form,
      so a comparison after ToLowerInvariant ignores case too. */
  lemma SameNameLower(a: string, b: string)
    requires SameName(a, b)
    ensures Lower(a) == Lower(b)
  {
    assert |a| == |Upper(a)| == |Upper(b)| == |b|;
    forall i | 0 <= i < |a| ensures LowerChar(a[i]) == LowerChar(b[i]) {
      assert Upper(a)[i] == Upper(b)[i];
    }
  }

  /** Char.IsWhiteSpace: the Unicode space separators, line and paragraph
      separators, and the controls U+0009..U+000D, U+0085. */
  predicate IsWhiteSpace(c: char)
  {
    c == ' ' || ('\t' <= c <= '\r') || c == '\U{0085}' || c == '\U{00A0}' || c == '\U{1680}'
    || ('\U{2000}' <= c <= '\U{200A}') || c == '\U{2028}' || c == '\U{2029}'
    || c == '\U{202F}' || c == '\U{205F}' || c == '\U{3000}'
  }

  /** string.IsNullOrWhiteSpace (a null string is not representable here). */
  predicate IsBlank(s: string)
  {
    forall i :: 0 <= i < |s| ==> IsWhiteSpace(s[i])
  }

  /** The leading-whitespace removal half of String.Trim. */
  function TrimStart(s: string): (r: string)
    ensures |r| <= |s| && r == s[|s| - |r|..]
    ensures forall i :: 0 <= i < |s| - |r| ==> IsWhiteSpace(s[i])
    ensures r == [] || !IsWhiteSpace(r[0])
  {
    if |s| > 0 && IsWhiteSpace(s[0]) then TrimStart(s[1..]) else s
  }

  /** The trailing-whitespace removal half of String.Trim. */
  function TrimEnd(s: string): (r: string)
    ensures |r| <= |s| && r == s[..|r|]
    ensures forall i :: |r| <= i < |s| ==> IsWhiteSpace(s[i])
    ensures r == [] || !IsWhiteSpace(r[|r| - 1])
  {
    if |s| > 0 && IsWhiteSpace(s[|s| - 1]) then TrimEnd(s[..|s| - 1]) else s
  }

  /** String.Trim: the result neither starts nor ends with whitespace, and
      it is empty exactly when the whole string is whitespace, so checking a
      trimmed field for blankness is the same as checking the raw field. */
  function Trim(s: string): (r: string)
    ensures |r| <= |s|
    ensures r == [] || (!IsWhiteSpace(r[0]) && !IsWhiteSpace(r[|r| - 1]))
    ensures r == [] <==> IsBlank(s)
  {
    var t := TrimStart(s);
    var r := TrimEnd(t);
    assert r != [] ==> r[0] == t[0];
    TrimStartBlank(s);
    TrimEndBlank(t);
    r
  }

  lemma TrimStartBlank(s: string)
    ensures IsBlank(s) <==> IsBlank(TrimStart(s))
  {
    var t := TrimStart(s);
    var k := |s| - |t|;
    assert forall i :: k <= i < |s| ==> s[i] == t[i - k];
  }

  lemma TrimEndBlank(t: string)
    ensures IsBlank(t) <==> TrimEnd(t) == []
  {
    if !IsBlank(t) {
      var i :| 0 <= i < |t| && !IsWhiteSpace(t[i]);
      assert i < |TrimEnd(t)|;
    }
  }

  /** What Trim keeps is the middle of s: whitespace is cut from both ends. */
  lemma TrimKeepsMiddle(s: string)
    ensures var k := |s| - |TrimStart(s)|;
      && k + |Trim(s)| <= |s|
      && (forall i :: 0 <= i < |Trim(s)| ==> Trim(s)[i] == s[k + i])
      && (forall i :: 0 <= i < k ==> IsWhiteSpace(s[i]))
      && (forall i :: k + |Trim(s)| <= i < |s| ==> IsWhiteSpace(s[i]))
  {
    var t := TrimStart(s);
    var r := TrimEnd(t);
    assert Trim(s) == r;
    MiddleOf(s, t, r);
  }

  /** A prefix r of a suffix t of s, followed in t by whitespace only. */
  lemma MiddleOf(s: string, t: string, r: string)
    requires |t| <= |s| && t == s[|s| - |t|..]
    requires |r| <= |t| && r == t[..|r|]
    requires forall i :: |r| <= i < |t| ==> IsWhiteSpace(t[i])
    ensures var k := |s| - |t|;
      && (forall i :: 0 <= i < |r| ==> r[i] == s[k + i])
      && forall i :: k + |r| <= i < |s| ==> IsWhiteSpace(s[i])
  {
    var k := |s| - |t|;
    forall i | k + |r| <= i < |s|
      ensures IsWhiteSpace(s[i])
    {
      assert s[i] == t[i - k];
    }
  }

  /** A trimmed field is blank exactly when the raw text is. */
  lemma BlankAfterTrim(s: string)
    ensures IsBlank(Trim(s)) <==> IsBlank(s)
  {
    if Trim(s) != [] {
      assert !IsWhiteSpace(Trim(s)[0]);
    }
  }

  /** Trimming a trimmed string changes nothing. */
  lemma TrimTwice(s: string)
    ensures Trim(Trim(s)) == Trim(s)
  {
    var r := Trim(s);
    assert TrimStart(r) == r;
    assert TrimEnd(r) == r;
  }

  /** String.StartsWith with an ordinal comparison. */
  predicate StartsWith(s: string, prefix: string)
  {
    |prefix| <= |s| && s[..|prefix|] == prefix
  }

  /** String.Split(sep): the pieces between occurrences of sep; a trailing
      separator yields a final empty piece. */
  function Split(s: string, sep: char): (parts: seq<string>)
    ensures |parts| >= 1
  {
    if s == [] then [[]]
    else if s[0] == sep then [[]] + Split(s[1..], sep)
    else var rest := Split(s[1..], sep); [[s[0]] + rest[0]] + rest[1..]
  }

  /** A string free of sep is a single piece. */
  lemma {:induction false} SplitWhole(a: string, sep: char)
    requires sep !in a
    ensures Split(a, sep) == [a]
  {
    if a != [] {
      SplitWhole(a[1..], sep);
      assert a == [a[0]] + a[1..];
    }
  }

  /** Splitting at one occurrence of sep splits the two sides independently. */
  lemma {:induction false} SplitAt(a: string, sep: char, b: string)
    ensures Split(a + [sep] + b, sep) == Split(a, sep) + Split(b, sep)
  {
    var t := a + [sep] + b;
    if a == [] {
      assert t == [sep] + b;
    } else {
      assert t[0] == a[0] && t[1..] == a[1..] + [sep] + b;
      SplitAt(a[1..], sep, b);
      if a[0] != sep {
        var rest := Split(t[1..], sep);
        var head := Split(a[1..], sep);
        assert rest == head + Split(b, sep);
        assert rest[0] == head[0] && rest[1..] == head[1..] + Split(b, sep);
      }
    }
  }

  /** Joining two strings merges the last piece of the first with the
      first piece of the second. */
  lemma {:induction false} SplitConcatCount(a: string, b: string, sep: char)
    ensures |Split(a + b, sep)| == |Split(a, sep)| + |Split(b, sep)| - 1
  {
    if a != [] {
      SplitConcatCount(a[1..], b, sep);
      assert (a + b)[1..] == a[1..] + b;
      assert (a + b)[0] == a[0];
    } else {
      assert a + b == b;
    }
  }

  /** Split yields one more piece than there are separators. */
  lemma {:induction false} SplitCount(s: string, sep: char)
    ensures |Split(s, sep)| == multiset(s)[sep] + 1
  {
    if s != [] {
      SplitCount(s[1..], sep);
      assert s == [s[0]] + s[1..];
      assert multiset(s) == multiset{s[0]} + multiset(s[1..]);
    }
  }
}
