/**
 * The string operations the scrapers take from Python's `str`: whitespace as `str.split()`,
 * `str.strip()` and the regular-expression class `\s` understand it, ASCII case mapping, and
 * the column-name normalisation `_propercase_and_remove_spaces` that every HTML scraper carries
 * a copy of.
 */
module Text {

  /** Python's notion of whitespace (`str.isspace`), shared by `split()`, `strip()` and `\s`. */
  predicate IsSpace(c: char) {
    || ('\t' <= c <= '\r')
    || ('\U{1C}' <= c <= ' ')
    || c == '\U{85}' || c == '\U{A0}' || c == '\U{1680}'
    || ('\U{2000}' <= c <= '\U{200A}')
    || c == '\U{2028}' || c == '\U{2029}' || c == '\U{202F}' || c == '\U{205F}' || c == '\U{3000}'
  }

  predicate NoSpace(s: string) {
    forall i :: 0 <= i < |s| ==> !IsSpace(s[i])
  }

  predicate AllSpace(s: string) {
    forall i :: 0 <= i < |s| ==> IsSpace(s[i])
  }

  predicate IsDigit(c: char) {
    '0' <= c <= '9'
  }

  predicate IsUpper(c: char) {
    'A' <= c <= 'Z'
  }

  predicate IsLower(c: char) {
    'a' <= c <= 'z'
  }

  function LowerChar(c: char): (d: char)
    ensures !IsUpper(d)
    ensures IsSpace(d) <==> IsSpace(c)
    ensures !IsUpper(c) ==> d == c
  {
    if IsUpper(c) then (c as int + 32) as char else c
  }

  function UpperChar(c: char): (d: char)
    ensures !IsLower(d)
    ensures IsSpace(d) <==> IsSpace(c)
    ensures !IsLower(c) ==> d == c
  {
    if IsLower(c) then (c as int - 32) as char else c
  }

  /** `str.lower()`, restricted to the ASCII letters. */
  function Lower(s: string): (r: string)
    ensures |r| == |s|
    ensures forall i :: 0 <= i < |s| ==> !IsUpper(r[i]) && IsSpace(r[i]) == IsSpace(s[i])
  {
    seq(|s|, i requires 0 <= i < |s| => LowerChar(s[i]))
  }

  lemma LowerIdempotent(s: string)
    ensures Lower(Lower(s)) == Lower(s)
  {
  }

  lemma LowerUnchanged(s: string)
    requires forall i :: 0 <= i < |s| ==> !IsUpper(s[i])
    ensures Lower(s) == s
  {
  }

  lemma LowerAppend(a: string, b: string)
    ensures Lower(a + b) == Lower(a) + Lower(b)
  {
  }

  // ---------------------------------------------------------------------------------------
  // Substrings

  predicate StartsWith(s: string, p: string) {
    |p| <= |s| && s[..|p|] == p
  }

  predicate EndsWith(s: string, p: string) {
    |p| <= |s| && s[|s| - |p|..] == p
  }

  predicate OccursAt(s: string, p: string, i: int) {
    0 <= i && i + |p| <= |s| && s[i..i + |p|] == p
  }

  /** Python's `p in s` for two strings. */
  function Contains(s: string, p: string): (b: bool)
    ensures b <==> exists i :: OccursAt(s, p, i)
    decreases |s|
  {
    if StartsWith(s, p) then
      assert OccursAt(s, p, 0);
      true
    else if s == [] then
      assert forall i :: !OccursAt(s, p, i);
      false
    else
      var r := Contains(s[1..], p);
      assert forall j :: OccursAt(s[1..], p, j) ==> OccursAt(s, p, j + 1);
      assert forall i :: OccursAt(s, p, i) ==> i == 0 || OccursAt(s[1..], p, i - 1);
      assert !OccursAt(s, p, 0);
      r
  }

  /** Index of the first occurrence of `c`, when there is one. */
  function IndexOf(s: string, c: char): (i: nat)
    requires c in s
    ensures i < |s| && s[i] == c && c !in s[..i]
  {
    if s[0] == c then 0 else 1 + IndexOf(s[1..], c)
  }

  /** Index of the last occurrence of `c`, when there is one. */
  function LastIndexOf(s: string, c: char): (i: nat)
    requires c in s
    ensures i < |s| && s[i] == c && c !in s[i + 1..]
  {
    if s[|s| - 1] == c then |s| - 1
    else
      var i := LastIndexOf(s[..|s| - 1], c);
      assert s[i + 1..] == s[..|s| - 1][i + 1..] + [s[|s| - 1]];
      i
  }

  /** The first `c` is the one right after a prefix without `c`. */
  lemma {:induction false} IndexOfAppend(a: string, c: char, b: string)
    requires c !in a
    ensures IndexOf(a + [c] + b, c) == |a|
  {
    if a != [] {
      assert (a + [c] + b)[1..] == a[1..] + [c] + b;
      IndexOfAppend(a[1..], c, b);
    }
  }

  /** The last `c` is the one right before a suffix without `c`. */
  lemma {:induction false} LastIndexOfAppend(a: string, c: char, b: string)
    requires c !in b
    ensures LastIndexOf(a + [c] + b, c) == |a|
    decreases |b|
  {
    if b != [] {
      var s := a + [c] + b;
      assert s[|s| - 1] == b[|b| - 1];
      assert s[..|s| - 1] == a + [c] + b[..|b| - 1];
      LastIndexOfAppend(a, c, b[..|b| - 1]);
    }
  }

  // ---------------------------------------------------------------------------------------
  // Splitting on a separator and joining again

  /** `s.split(sep)` for a one-character separator. */
  function SplitOn(s: string, sep: char): (parts: seq<string>)
    ensures |parts| >= 1
    ensures forall i :: 0 <= i < |parts| ==> sep !in parts[i]
    decreases |s|
  {
    if sep in s then
      var i := IndexOf(s, sep);
      [s[..i]] + SplitOn(s[i + 1..], sep)
    else
      [s]
  }

  /** `sep.join(parts)` for a one-character separator. */
  function JoinWith(parts: seq<string>, sep: char): string {
    if parts == [] then ""
    else if |parts| == 1 then parts[0]
    else parts[0] + [sep] + JoinWith(parts[1..], sep)
  }

  /** Splitting loses nothing: joining the parts again gives the original string. */
  lemma {:induction false} JoinSplitOn(s: string, sep: char)
    ensures JoinWith(SplitOn(s, sep), sep) == s
    decreases |s|
  {
    if sep in s {
      var i := IndexOf(s, sep);
      var rest := SplitOn(s[i + 1..], sep);
      JoinSplitOn(s[i + 1..], sep);
      assert SplitOn(s, sep) == [s[..i]] + rest;
      assert s == s[..i] + [sep] + s[i + 1..];
    }
  }

  /** Conversely, splitting a join of separator-free parts gives the parts back. */
  lemma {:induction false} SplitOnJoin(parts: seq<string>, sep: char)
    requires |parts| >= 1
    requires forall i :: 0 <= i < |parts| ==> sep !in parts[i]
    ensures SplitOn(JoinWith(parts, sep), sep) == parts
  {
    if |parts| > 1 {
      var s := JoinWith(parts, sep);
      var p := parts[0];
      var rest := JoinWith(parts[1..], sep);
      assert s == p + [sep] + rest;
      assert IndexOf(s, sep) == |p| by {
        IndexOfAppend(p, sep, rest);
      }
      assert s[..|p|] == p && s[|p| + 1..] == rest;
      SplitOnJoin(parts[1..], sep);
      assert parts == [p] + parts[1..];
    } else {
      assert JoinWith(parts, sep) == parts[0];
    }
  }

  // ---------------------------------------------------------------------------------------
  // str.split() and str.strip()

  /** Number of leading characters that are not whitespace. */
  function WordLength(s: string): (n: nat)
    ensures n <= |s|
    ensures forall i :: 0 <= i < n ==> !IsSpace(s[i])
    ensures n < |s| ==> IsSpace(s[n])
  {
    if s == [] || IsSpace(s[0]) then 0 else 1 + WordLength(s[1..])
  }

  /** `s.split()`: the maximal runs of non-whitespace characters, in order. */
  function Split(s: string): (words: seq<string>)
    ensures forall i :: 0 <= i < |words| ==> words[i] != [] && NoSpace(words[i])
    decreases |s|
  {
    if s == [] then []
    else if IsSpace(s[0]) then Split(s[1..])
    else
      var n := WordLength(s);
      [s[..n]] + Split(s[n..])
  }

  /** A string of whitespace only has no words. */
  lemma {:induction false} SplitAllSpace(s: string)
    requires AllSpace(s)
    ensures Split(s) == []
    decreases |s|
  {
    if s != [] {
      SplitAllSpace(s[1..]);
    }
  }

  /** A non-empty string without whitespace is a single word. */
  lemma SplitOneWord(s: string)
    requires s != [] && NoSpace(s)
    ensures Split(s) == [s]
  {
    assert WordLength(s) == |s|;
    assert s[..|s|] == s;
    assert s[|s|..] == [];
  }

  /** Whitespace separates words: splitting around one whitespace character splits both sides. */
  lemma {:induction false} SplitAtSpace(a: string, c: char, b: string)
    requires IsSpace(c)
    ensures Split(a + [c] + b) == Split(a) + Split(b)
    decreases |a|
  {
    var s := a + [c] + b;
    if a == [] {
      assert s[1..] == b;
    } else if IsSpace(a[0]) {
      assert s[1..] == a[1..] + [c] + b;
      SplitAtSpace(a[1..], c, b);
    } else if WordLength(a) == |a| {
      SplitAtSpaceWholeWord(a, c, b);
    } else {
      var n := WordLength(a);
      var cb := [c] + b;
      var w := a[..n];
      assert Split(s) == [w] + Split(a[n..] + [c] + b) by {
        assert s == a + cb;
        assert a[n..] + cb == a[n..] + [c] + b;
        SplitFirstWord(a, cb);
      }
      assert Split(a) == [w] + Split(a[n..]) by {
        SplitFirstWord(a, cb);
      }
      SplitAtSpace(a[n..], c, b);
    }
  }

  /** The first word of `a + b` is that of `a` when it ends inside `a`. */
  lemma SplitFirstWord(a: string, b: string)
    requires a != [] && !IsSpace(a[0]) && WordLength(a) < |a|
    ensures Split(a + b) == [a[..WordLength(a)]] + Split(a[WordLength(a)..] + b)
    ensures Split(a) == [a[..WordLength(a)]] + Split(a[WordLength(a)..])
  {
    var n := WordLength(a);
    WordLengthPrefix(a, b);
    assert (a + b)[..n] == a[..n];
    assert (a + b)[n..] == a[n..] + b;
  }

  lemma SplitAtSpaceWholeWord(a: string, c: char, b: string)
    requires IsSpace(c) && a != [] && !IsSpace(a[0]) && WordLength(a) == |a|
    ensures Split(a + [c] + b) == Split(a) + Split(b)
  {
    var s := a + [c] + b;
    var cb := [c] + b;
    var n := |a|;
    assert Split(a) == [a] by {
      assert a[..n] == a && a[n..] == [];
    }
    assert Split(cb) == Split(b) by {
      assert cb[1..] == b;
    }
    assert Split(s) == [a] + Split(cb) by {
      assert s == a + cb;
      WordLengthPrefix(a, cb);
      assert s[..n] == a && s[n..] == cb;
    }
  }

  lemma {:induction false} WordLengthPrefix(a: string, b: string)
    requires WordLength(a) < |a| || (b != [] && IsSpace(b[0]))
    ensures WordLength(a + b) == WordLength(a)
    decreases |a|
  {
    if a != [] && !IsSpace(a[0]) {
      assert (a + b)[1..] == a[1..] + b;
      WordLengthPrefix(a[1..], b);
    }
  }

  function TrimStart(s: string): (r: string)
    ensures |r| <= |s| && r == s[|s| - |r|..]
    ensures AllSpace(s[..|s| - |r|])
    ensures r != [] ==> !IsSpace(r[0])
  {
    if s != [] && IsSpace(s[0]) then
      var r := TrimStart(s[1..]);
      assert s[..|s| - |r|] == [s[0]] + s[1..][..|s| - 1 - |r|];
      r
    else
      s
  }

  function TrimEnd(s: string): (r: string)
    ensures |r| <= |s| && r == s[..|r|]
    ensures AllSpace(s[|r|..])
    ensures r != [] ==> !IsSpace(r[|r| - 1])
  {
    if s != [] && IsSpace(s[|s| - 1]) then
      var r := TrimEnd(s[..|s| - 1]);
      assert s[|r|..] == s[..|s| - 1][|r|..] + [s[|s| - 1]];
      r
    else
      s
  }

  /** `s.strip()`: leading and trailing whitespace removed. */
  function Strip(s: string): string {
    TrimEnd(TrimStart(s))
  }

  /** What `strip()` leaves is the slice of `s` between a whitespace prefix and a whitespace suffix. */
  lemma StripSlice(s: string)
    ensures exists i, j :: 0 <= i <= j <= |s| && Strip(s) == s[i..j] && AllSpace(s[..i]) && AllSpace(s[j..])
  {
    var t := TrimStart(s);
    var r := TrimEnd(t);
    var i := |s| - |t|;
    var j := i + |r|;
    assert r == s[i..j] by {
      assert t == s[i..];
      assert r == t[..|r|];
    }
    assert AllSpace(s[j..]) by {
      assert s[j..] == t[|r|..];
    }
    assert AllSpace(s[..i]);
  }

  /** What `strip()` leaves neither starts nor ends with whitespace. */
  lemma StripEnds(s: string)
    ensures Strip(s) != [] ==> !IsSpace(Strip(s)[0]) && !IsSpace(Strip(s)[|Strip(s)| - 1])
  {
    var t := TrimStart(s);
    var r := TrimEnd(t);
    assert r != [] ==> r[0] == t[0];
  }

  // ---------------------------------------------------------------------------------------
  // _propercase_and_remove_spaces

  /** `w.capitalize()`: the first character upper-cased, the rest lower-cased (ASCII only). */
  function Capitalize(w: string): (r: string)
    ensures |r| == |w|
    ensures NoSpace(w) ==> NoSpace(r)
  {
    if w == [] then [] else [UpperChar(w[0])] + Lower(w[1..])
  }

  function Concat(ws: seq<string>): string {
    if ws == [] then "" else ws[0] + Concat(ws[1..])
  }

  /** `s.replace(c, "")` for one character. */
  function RemoveChar(s: string, c: char): (r: string)
    ensures c !in r
  {
    if s == [] then "" else (if s[0] == c then "" else [s[0]]) + RemoveChar(s[1..], c)
  }

  function CapitalizeAll(ws: seq<string>): (r: seq<string>)
    ensures |r| == |ws|
    ensures forall i :: 0 <= i < |ws| ==> r[i] == Capitalize(ws[i])
  {
    seq(|ws|, i requires 0 <= i < |ws| => Capitalize(ws[i]))
  }

  /**
   * `_propercase_and_remove_spaces`, as written: capitalise every word of `s.split()`, join them
   * with single spaces, then delete every space.
   */
  function ProperCase(s: string): string {
    RemoveChar(JoinWith(CapitalizeAll(Split(s)), ' '), ' ')
  }

  lemma {:induction false} RemoveCharAppend(a: string, b: string, c: char)
    ensures RemoveChar(a + b, c) == RemoveChar(a, c) + RemoveChar(b, c)
    decreases |a|
  {
    if a != [] {
      assert (a + b)[1..] == a[1..] + b;
      RemoveCharAppend(a[1..], b, c);
    } else {
      assert a + b == b;
    }
  }

  lemma {:induction false} RemoveCharAbsent(s: string, c: char)
    requires c !in s
    ensures RemoveChar(s, c) == s
    decreases |s|
  {
    if s != [] {
      assert c !in s[1..];
      RemoveCharAbsent(s[1..], c);
    }
  }

  /** A word without whitespace holds no blank. */
  lemma NoSpaceNoBlank(w: string)
    requires NoSpace(w)
    ensures ' ' !in w
  {
    forall i | 0 <= i < |w|
      ensures w[i] != ' '
    {
      assert !IsSpace(w[i]);
    }
  }

  /** Deleting the blanks of `w + " " + rest` keeps a blank-free `w` and drops the separator. */
  lemma RemoveBlankAfterWord(w: string, rest: string)
    requires ' ' !in w
    ensures RemoveChar(w + [' '] + rest, ' ') == w + RemoveChar(rest, ' ')
  {
    var blank: string := [' '];
    var wb := w + blank;
    assert RemoveChar(wb, ' ') == w by {
      assert RemoveChar(blank, ' ') == "" by {
        assert blank[1..] == [];
      }
      RemoveCharAppend(w, blank, ' ');
      RemoveCharAbsent(w, ' ');
    }
    RemoveCharAppend(wb, rest, ' ');
  }

  lemma {:induction false} RemoveSpacesOfJoin(ws: seq<string>)
    requires forall i :: 0 <= i < |ws| ==> NoSpace(ws[i])
    ensures RemoveChar(JoinWith(ws, ' '), ' ') == Concat(ws)
    decreases |ws|
  {
    if ws == [] {
    } else {
      NoSpaceNoBlank(ws[0]);
      if |ws| == 1 {
        RemoveCharAbsent(ws[0], ' ');
        assert Concat(ws[1..]) == "";
      } else {
        RemoveSpacesOfJoin(ws[1..]);
        RemoveBlankAfterWord(ws[0], JoinWith(ws[1..], ' '));
      }
    }
  }

  lemma {:induction false} ConcatNoSpace(ws: seq<string>)
    requires forall i :: 0 <= i < |ws| ==> NoSpace(ws[i])
    ensures NoSpace(Concat(ws))
    decreases |ws|
  {
    if ws != [] {
      ConcatNoSpace(ws[1..]);
    }
  }

  /** The join-then-delete of the source is plain concatenation of the capitalised words. */
  lemma ProperCaseIsConcat(s: string)
    ensures ProperCase(s) == Concat(CapitalizeAll(Split(s)))
  {
    RemoveSpacesOfJoin(CapitalizeAll(Split(s)));
  }

  /** The normalised column name contains no whitespace at all. */
  lemma ProperCaseNoSpace(s: string)
    ensures NoSpace(ProperCase(s))
  {
    ProperCaseIsConcat(s);
    ConcatNoSpace(CapitalizeAll(Split(s)));
  }

  /** A header that is whitespace only normalises to the empty name. */
  lemma ProperCaseAllSpace(s: string)
    requires AllSpace(s)
    ensures ProperCase(s) == ""
  {
    SplitAllSpace(s);
  }

  /** A whitespace-free header is only re-capitalised. */
  lemma ProperCaseOneWord(s: string)
    requires NoSpace(s)
    ensures ProperCase(s) == Capitalize(s)
  {
    ProperCaseIsConcat(s);
    if s == [] {
    } else {
      SplitOneWord(s);
      assert Concat([Capitalize(s)]) == Capitalize(s) + Concat([]);
    }
  }

  /** Normalising twice is capitalising the normalised name, which is not normalising once. */
  lemma ProperCaseTwice(s: string)
    ensures ProperCase(ProperCase(s)) == Capitalize(ProperCase(s))
  {
    ProperCaseNoSpace(s);
    ProperCaseOneWord(ProperCase(s));
  }

  lemma CatPosWord(s: string)
    requires s == "CatPos"
    ensures NoSpace(s) && Capitalize(s) == "Catpos"
  {
    var tail := s[1..];
    assert tail == "atPos";
    assert Lower(tail) == "atpos";
  }

  /** "CatPos" becomes "Catpos": the normalisation is not idempotent. */
  lemma ProperCaseNotIdempotent(s: string)
    requires s == "CatPos"
    ensures ProperCase(s) == "Catpos"
  {
    CatPosWord(s);
    ProperCaseOneWord(s);
  }

  /** Two words written apart with one blank split into exactly those two words. */
  lemma SplitTwoWords(a: string, b: string)
    requires a != [] && b != [] && NoSpace(a) && NoSpace(b)
    ensures Split(a + [' '] + b) == [a, b]
  {
    assert Split(a) == [a] by { SplitOneWord(a); }
    assert Split(b) == [b] by { SplitOneWord(b); }
    SplitAtSpace(a, ' ', b);
  }

  lemma CapitalizeExamples()
    ensures Capitalize("cat") == "Cat" && Capitalize("pos") == "Pos"
  {
    assert Lower("at") == "at";
    assert Lower("os") == "os";
  }

  /** Two words written apart are joined, each capitalised. */
  lemma ProperCaseTwoWords(a: string, b: string)
    requires a != [] && b != [] && NoSpace(a) && NoSpace(b)
    ensures ProperCase(a + [' '] + b) == Capitalize(a) + Capitalize(b)
  {
    var s := a + [' '] + b;
    assert Split(s) == [a, b] by { SplitTwoWords(a, b); }
    ProperCaseIsConcat(s);
    var caps := CapitalizeAll([a, b]);
    assert Concat(caps) == Capitalize(a) + Capitalize(b) by {
      assert caps[1..] == [Capitalize(b)];
      assert Concat(caps[1..]) == Capitalize(b) + Concat([]);
    }
  }

  /** "cat pos" names the column "CatPos". */
  lemma ProperCaseJoinsWords(s: string)
    requires s == "cat pos"
    ensures ProperCase(s) == "CatPos"
  {
    assert s == "cat" + [' '] + "pos";
    assert NoSpace("cat") && NoSpace("pos");
    ProperCaseTwoWords("cat", "pos");
    CapitalizeExamples();
  }
}
