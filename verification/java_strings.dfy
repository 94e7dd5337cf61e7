/**
 * The few java.lang.String and Spring StringUtils operations the services
 * rely on, with their Java semantics written out. Case folding is
 * ASCII-only.
 */
module JavaStrings {
  import opened Wrappers

  /**
   * Character.isWhitespace: the space, line and paragraph separators of
   * Unicode except the three no-break spaces (U+00A0, U+2007, U+202F), and
   * the controls U+0009 to U+000D and U+001C to U+001F.
   */
  predicate IsWhitespace(c: char) {
    ('\t' <= c <= '\r') || ('\U{1C}' <= c <= '\U{1F}') || c == ' '
    || c == '\U{1680}' || ('\U{2000}' <= c <= '\U{2006}') || ('\U{2008}' <= c <= '\U{200A}')
    || c == '\U{2028}' || c == '\U{2029}' || c == '\U{205F}' || c == '\U{3000}'
  }

  /** String.isBlank: the string is empty or only whitespace. */
  predicate IsBlank(s: string) {
    forall i :: 0 <= i < |s| ==> IsWhitespace(s[i])
  }

  /** StringUtils.hasText on a non-null string: some character is not whitespace. */
  predicate HasText(s: string) {
    !IsBlank(s)
  }

  /** StringUtils.hasText on a nullable string. */
  predicate HasTextOpt(s: Option<string>) {
    s.Some? && HasText(s.value)
  }

  /** A nullable string that is null or "" (the `s == null || s.isEmpty()` guard). */
  predicate NullOrEmpty(s: Option<string>) {
    s.None? || s.value == ""
  }

  predicate StartsWith(s: string, prefix: string) {
    |prefix| <= |s| && s[..|prefix|] == prefix
  }

  predicate EndsWith(s: string, suffix: string) {
    |suffix| <= |s| && s[|s| - |suffix|..] == suffix
  }

  /** String.contains: needle occurs at some position of s. */
  predicate Contains(s: string, needle: string) {
    StartsWith(s, needle) || (|s| > 0 && Contains(s[1..], needle))
  }

  function LowerChar(c: char): char {
    if 'A' <= c <= 'Z' then (c as int + 32) as char else c
  }

  function UpperChar(c: char): char {
    if 'a' <= c <= 'z' then (c as int - 32) as char else c
  }

  function ToLower(s: string): string {
    seq(|s|, i requires 0 <= i < |s| => LowerChar(s[i]))
  }

  function ToUpper(s: string): string {
    seq(|s|, i requires 0 <= i < |s| => UpperChar(s[i]))
  }

  /** String.equalsIgnoreCase on a non-null argument. */
  predicate EqualsIgnoreCase(a: string, b: string) {
    ToLower(a) == ToLower(b)
  }

  /** String.equalsIgnoreCase with a possibly null argument (null never matches). */
  predicate EqualsIgnoreCaseOpt(literal: string, s: Option<string>) {
    s.Some? && EqualsIgnoreCase(literal, s.value)
  }

  /**
   * The ASCII folds: lowering is idempotent, forgets an earlier raising,
   * leaves no capital letter, and a string equals its upper case ignoring case.
   */
  lemma CaseFoldLaws(s: string)
    ensures ToLower(ToLower(s)) == ToLower(s)
    ensures ToLower(ToUpper(s)) == ToLower(s)
    ensures ToUpper(ToLower(s)) == ToUpper(s)
    ensures forall i :: 0 <= i < |s| ==> !('A' <= ToLower(s)[i] <= 'Z')
    ensures EqualsIgnoreCase(s, ToUpper(s))
  {
    assert forall i :: 0 <= i < |s| ==> ToLower(ToLower(s))[i] == ToLower(s)[i];
    assert forall i :: 0 <= i < |s| ==> ToLower(ToUpper(s))[i] == ToLower(s)[i];
    assert forall i :: 0 <= i < |s| ==> ToUpper(ToLower(s))[i] == ToUpper(s)[i];
  }

  /** Below U+0080 every Character.isWhitespace character is one String.trim cuts. */
  lemma AsciiWhitespaceIsTrimmed(c: char)
    requires c < '\U{80}'
    ensures IsWhitespace(c) ==> c <= ' '
  {
  }

  /**
   * StringUtils.hasText tests Character.isWhitespace while String.trim cuts
   * everything up to U+0020, so neither implies the other: "\0" has text
   * and trims to "", and U+3000 alone has none yet survives trim.
   */
  lemma HasTextVersusTrim()
    ensures HasText("\0") && Trim("\0") == ""
    ensures !HasText("\U{3000}") && Trim("\U{3000}") == "\U{3000}"
  {
    var nul := "\0";
    assert !IsWhitespace(nul[0]);
    assert TrimStart(nul) == TrimStart(nul[1..]);
    assert nul[1..] == "";
    var wide := "\U{3000}";
    assert IsWhitespace(wide[0]);
    assert TrimStart(wide) == wide;
    assert TrimEnd(wide) == wide;
  }

  /** String.indexOf(char): the first position of c, or None for -1. */
  function IndexOf(s: string, c: char): (r: Option<nat>)
    ensures r.Some? ==> r.value < |s| && s[r.value] == c && c !in s[..r.value]
    ensures r.None? <==> c !in s
  {
    if |s| == 0 then None
    else if s[0] == c then Some(0)
    else
      match IndexOf(s[1..], c)
      case None => None
      case Some(k) =>
        assert s[..k + 1] == [s[0]] + s[1..][..k];
        Some(k + 1)
  }

  /** The first c of a + [c] + b, when a holds none, is at |a|. */
  lemma IndexOfAfter(a: string, c: char, b: string)
    requires c !in a
    ensures IndexOf(a + [c] + b, c) == Some(|a|)
  {
    var s := a + [c] + b;
    var i := IndexOf(s, c).value;
    assert s[|a|] == c;
    assert forall j :: 0 <= j < |a| ==> s[j] == a[j];
    assert forall j :: 0 <= j < i ==> s[..i][j] == s[j];
  }

  /** String.lastIndexOf(char): the last position of c, or None for -1. */
  function LastIndexOf(s: string, c: char): (r: Option<nat>)
    ensures r.Some? ==> r.value < |s| && s[r.value] == c && c !in s[r.value + 1..]
    ensures r.None? <==> c !in s
  {
    if |s| == 0 then None
    else if s[|s| - 1] == c then Some(|s| - 1)
    else
      match LastIndexOf(s[..|s| - 1], c)
      case None =>
        assert s == s[..|s| - 1] + [s[|s| - 1]];
        None
      case Some(k) =>
        assert s[k + 1..] == s[..|s| - 1][k + 1..] + [s[|s| - 1]];
        Some(k)
  }

  /** The leading characters up to U+0020 that String.trim removes, dropped. */
  function TrimStart(s: string): (r: string)
    ensures |r| <= |s| && r == s[|s| - |r|..]
    ensures r == [] || r[0] > ' '
  {
    if |s| > 0 && s[0] <= ' ' then TrimStart(s[1..]) else s
  }

  /** The trailing characters up to U+0020 that String.trim removes, dropped. */
  function TrimEnd(s: string): (r: string)
    ensures |r| <= |s| && r == s[..|r|]
    ensures r == [] || r[|r| - 1] > ' '
  {
    if |s| > 0 && s[|s| - 1] <= ' ' then TrimEnd(s[..|s| - 1]) else s
  }

  /** TrimStart drops only characters up to U+0020. */
  lemma {:induction false} TrimStartDropsBlanks(s: string)
    ensures forall i :: 0 <= i < |s| - |TrimStart(s)| ==> s[i] <= ' '
  {
    if |s| > 0 && s[0] <= ' ' {
      TrimStartDropsBlanks(s[1..]);
      assert forall i :: 1 <= i < |s| ==> s[i] == s[1..][i - 1];
    }
  }

  /** TrimEnd drops only characters up to U+0020. */
  lemma {:induction false} TrimEndDropsBlanks(s: string)
    ensures forall i :: |TrimEnd(s)| <= i < |s| ==> s[i] <= ' '
  {
    if |s| > 0 && s[|s| - 1] <= ' ' {
      TrimEndDropsBlanks(s[..|s| - 1]);
      assert forall i :: 0 <= i < |s| - 1 ==> s[i] == s[..|s| - 1][i];
    }
  }

  /** String.trim: both ends lose their characters up to U+0020. */
  function Trim(s: string): string {
    TrimEnd(TrimStart(s))
  }

  /** Trim leaves a string whose ends are above U+0020. */
  lemma TrimEndsVisible(s: string)
    ensures var r := Trim(s); r == [] || (r[0] > ' ' && r[|r| - 1] > ' ')
  {
    var t := TrimStart(s);
    var r := TrimEnd(t);
    if r != [] {
      assert r[0] == t[0];
    }
  }

  /** Trim leaves a slice of s. */
  lemma TrimSlice(s: string)
    ensures var a := |s| - |TrimStart(s)|; a + |Trim(s)| <= |s| && Trim(s) == s[a..a + |Trim(s)|]
  {
    var t := TrimStart(s);
    PrefixOfSuffix(s, |s| - |t|, |TrimEnd(t)|);
  }

  /** The first n characters of the suffix from a are the slice a..a+n. */
  lemma PrefixOfSuffix(s: string, a: nat, n: nat)
    requires a + n <= |s|
    ensures s[a..][..n] == s[a..a + n]
  {
  }

  /** A concatenation starts with its first part, and the rest is its second part. */
  lemma SplitAfterPrefix(a: string, b: string)
    ensures StartsWith(a + b, a) && (a + b)[|a|..] == b
    ensures EndsWith(a + b, b)
  {
    assert (a + b)[..|a|] == a;
    assert (a + b)[|a + b| - |b|..] == b;
  }

  /** Trimming a trimmed string changes nothing. */
  lemma TrimIdempotent(s: string)
    ensures Trim(Trim(s)) == Trim(s)
  {
    TrimEndsVisible(s);
    var r := Trim(s);
    assert TrimStart(r) == r;
    assert TrimEnd(r) == r;
  }

  /** A string with a character above U+0020 does not trim to "". */
  lemma TrimKeepsVisible(s: string, i: nat)
    requires i < |s| && s[i] > ' '
    ensures Trim(s) != ""
  {
    var t := TrimStart(s);
    TrimStartDropsBlanks(s);
    TrimEndDropsBlanks(t);
    assert i >= |s| - |t|;
    assert t[i - (|s| - |t|)] == s[i];
  }

  /** String.join(sep, xs). */
  function Join(xs: seq<string>, sep: char): string {
    if |xs| == 0 then ""
    else if |xs| == 1 then xs[0]
    else xs[0] + [sep] + Join(xs[1..], sep)
  }

  /** The pieces of s between the occurrences of sep, empty pieces included. */
  function Fields(s: string, sep: char): (r: seq<string>)
    ensures |r| >= 1
    ensures forall k :: 0 <= k < |r| ==> sep !in r[k]
  {
    if |s| == 0 then [""]
    else
      var rest := Fields(s[1..], sep);
      if s[0] == sep then [""] + rest
      else [[s[0]] + rest[0]] + rest[1..]
  }

  /** Removes the empty strings at the end of xs. */
  function DropTrailingEmpty(xs: seq<string>): (r: seq<string>)
    ensures |r| <= |xs| && r == xs[..|r|]
    ensures r == [] || r[|r| - 1] != ""
    ensures forall k :: |r| <= k < |xs| ==> xs[k] == ""
  {
    if |xs| == 0 then []
    else if xs[|xs| - 1] == "" then DropTrailingEmpty(xs[..|xs| - 1])
    else xs
  }

  /**
   * String.split(sep) for a separator that is not a regex metacharacter:
   * with no occurrence the string itself is the only piece (so "" gives
   * [""]); otherwise trailing empty pieces are removed.
   */
  function Split(s: string, sep: char): seq<string> {
    if sep !in s then [s] else DropTrailingEmpty(Fields(s, sep))
  }

  /** A string of separators only has only empty fields. */
  lemma {:induction false} FieldsOfSeparators(s: string, sep: char)
    requires forall i :: 0 <= i < |s| ==> s[i] == sep
    ensures forall k :: 0 <= k < |Fields(s, sep)| ==> Fields(s, sep)[k] == ""
  {
    if |s| > 0 {
      FieldsOfSeparators(s[1..], sep);
    }
  }

  /** Joining empty strings gives separators only. */
  lemma {:induction false} JoinOfEmpties(xs: seq<string>, sep: char)
    requires forall k :: 0 <= k < |xs| ==> xs[k] == ""
    ensures forall i :: 0 <= i < |Join(xs, sep)| ==> Join(xs, sep)[i] == sep
  {
    if |xs| >= 2 {
      JoinOfEmpties(xs[1..], sep);
      assert Join(xs, sep) == [sep] + Join(xs[1..], sep);
    }
  }

  /**
   * The pieces String.split returns never contain the separator, and there
   * are none exactly when the string is a non-empty run of separators.
   */
  lemma SplitPieces(s: string, sep: char)
    ensures forall k :: 0 <= k < |Split(s, sep)| ==> sep !in Split(s, sep)[k]
    ensures Split(s, sep) == [] <==> sep in s && forall i :: 0 <= i < |s| ==> s[i] == sep
  {
    if sep in s {
      var f := Fields(s, sep);
      if Split(s, sep) == [] {
        JoinFields(s, sep);
        JoinOfEmpties(f, sep);
      }
      if forall i :: 0 <= i < |s| ==> s[i] == sep {
        FieldsOfSeparators(s, sep);
      }
    }
  }

  /** Joining the fields of s gives s back: Fields loses nothing. */
  lemma {:induction false} JoinFields(s: string, sep: char)
    ensures Join(Fields(s, sep), sep) == s
  {
    if |s| > 0 {
      var rest := Fields(s[1..], sep);
      JoinFields(s[1..], sep);
      if s[0] == sep {
        assert Fields(s, sep) == [""] + rest;
        assert ([""] + rest)[1..] == rest;
        assert s == [sep] + s[1..];
      } else {
        var r := Fields(s, sep);
        assert r == [[s[0]] + rest[0]] + rest[1..];
        if |rest| > 1 {
          assert r[1..] == rest[1..];
          assert Join(rest, sep) == rest[0] + [sep] + Join(rest[1..], sep);
          assert s == [s[0]] + s[1..];
        } else {
          assert s == [s[0]] + s[1..];
        }
      }
    }
  }

  lemma {:induction false} FieldsNoSep(x: string, sep: char)
    requires sep !in x
    ensures Fields(x, sep) == [x]
  {
    if |x| > 0 {
      FieldsNoSep(x[1..], sep);
      assert x == [x[0]] + x[1..];
    }
  }

  lemma {:induction false} FieldsCons(x: string, sep: char, t: string)
    requires sep !in x
    ensures Fields(x + [sep] + t, sep) == [x] + Fields(t, sep)
  {
    if |x| == 0 {
      assert x + [sep] + t == [sep] + t;
      assert ([sep] + t)[1..] == t;
    } else {
      assert (x + [sep] + t)[1..] == x[1..] + [sep] + t;
      FieldsCons(x[1..], sep, t);
      assert x == [x[0]] + x[1..];
    }
  }

  /** Fields undoes Join for pieces that do not contain the separator. */
  lemma {:induction false} FieldsJoin(xs: seq<string>, sep: char)
    requires |xs| >= 1
    requires forall k :: 0 <= k < |xs| ==> sep !in xs[k]
    ensures Fields(Join(xs, sep), sep) == xs
  {
    if |xs| == 1 {
      FieldsNoSep(xs[0], sep);
    } else {
      FieldsJoin(xs[1..], sep);
      FieldsCons(xs[0], sep, Join(xs[1..], sep));
      assert xs == [xs[0]] + xs[1..];
    }
  }

  /** The separator occurs in a join of two or more pieces. */
  lemma JoinHasSep(xs: seq<string>, sep: char)
    requires |xs| >= 2
    ensures (xs[0] + [sep] + Join(xs[1..], sep))[|xs[0]|] == sep
    ensures sep in Join(xs, sep)
  {
  }

  /**
   * Split undoes Join for a non-empty list of non-empty pieces free of the
   * separator.
   */
  lemma SplitJoin(xs: seq<string>, sep: char)
    requires |xs| >= 1
    requires forall k :: 0 <= k < |xs| ==> xs[k] != "" && sep !in xs[k]
    ensures Split(Join(xs, sep), sep) == xs
  {
    FieldsJoin(xs, sep);
    if |xs| >= 2 {
      JoinHasSep(xs, sep);
    }
  }

  /** A non-negative long as string concatenation renders it: its decimal digits, without leading zeros. */
  function DecimalString(n: nat): (s: string)
    ensures |s| >= 1 && forall k :: 0 <= k < |s| ==> '0' <= s[k] <= '9'
    ensures n >= 10 ==> s[0] != '0'
  {
    var last := ('0' as nat + n % 10) as char;
    if n < 10 then [last] else DecimalString(n / 10) + [last]
  }
}

/** java.util.List and Set operations used by the entities' helper methods. */
module JavaLists {
  import opened Wrappers

  /** List.indexOf(Object): the position of the first element equal to x. */
  function FirstIndexOf<T(==)>(xs: seq<T>, x: T): (r: Option<nat>)
    ensures r.Some? ==> r.value < |xs| && xs[r.value] == x && x !in xs[..r.value]
    ensures r.None? <==> x !in xs
  {
    if |xs| == 0 then None
    else if xs[0] == x then Some(0)
    else
      match FirstIndexOf(xs[1..], x)
      case None =>
        assert xs == [xs[0]] + xs[1..];
        None
      case Some(k) =>
        assert xs[..k + 1] == [xs[0]] + xs[1..][..k];
        Some(k + 1)
  }

  /** List.remove(Object): drops the first element equal to x, if any. */
  function RemoveFirst<T(==)>(xs: seq<T>, x: T): (r: seq<T>)
    ensures x !in xs ==> r == xs
    ensures x in xs ==> |r| == |xs| - 1
    ensures multiset(r) == multiset(xs) - multiset{x}
    ensures forall y :: y in r ==> y in xs
  {
    match FirstIndexOf(xs, x)
    case None => xs
    case Some(k) =>
      assert xs == xs[..k] + [x] + xs[k + 1..];
      xs[..k] + xs[k + 1..]
  }

  /** Appending an element not yet present and removing it again gives the list back. */
  lemma RemoveFirstAfterAppend<T>(xs: seq<T>, x: T)
    requires x !in xs
    ensures RemoveFirst(xs + [x], x) == xs
  {
    var k := FirstIndexOf(xs + [x], x).value;
    assert (xs + [x])[|xs|] == x;
    assert forall j :: 0 <= j < |xs| ==> (xs + [x])[j] == xs[j];
    assert (xs + [x])[..k] == xs;
  }

  /** stream().filter(p).findFirst(): the position of the first element satisfying p. */
  function IndexWhere<T>(xs: seq<T>, p: T -> bool): (r: Option<nat>)
    ensures r.Some? ==> r.value < |xs| && p(xs[r.value]) && forall j :: 0 <= j < r.value ==> !p(xs[j])
    ensures r.None? <==> forall j :: 0 <= j < |xs| ==> !p(xs[j])
  {
    if |xs| == 0 then None
    else if p(xs[0]) then Some(0)
    else
      match IndexWhere(xs[1..], p)
      case None =>
        assert forall j :: 1 <= j < |xs| ==> xs[j] == xs[1..][j - 1];
        None
      case Some(k) =>
        assert forall j :: 1 <= j < k + 1 ==> xs[j] == xs[1..][j - 1];
        Some(k + 1)
  }

  /** Removing an element that occurs first at position k removes exactly position k. */
  lemma RemoveFirstAt<T>(xs: seq<T>, k: nat)
    requires k < |xs|
    requires forall j :: 0 <= j < k ==> xs[j] != xs[k]
    ensures RemoveFirst(xs, xs[k]) == xs[..k] + xs[k + 1..]
  {
    var i := FirstIndexOf(xs, xs[k]).value;
    assert forall j :: 0 <= j < i ==> xs[..i][j] == xs[j];
  }
}
