/** The few Python `str` operations the credential loader relies on, with the
    semantics CPython gives them: `pat in s`, `s.find(pat)`, `s.split(sep)`,
    `sep.join(parts)`, `s.replace(pat, rep)`, `s.strip()` and `s.strip(chars)`.
    Patterns and separators are non-empty, as the loader's are.
    The functions carry no quantified postconditions; what they compute is
    stated by the lemma that follows each one. */
module PyStr {
  import opened Wrappers

  /** `pat` occurs in `s` starting at index `i`. */
  predicate OccursAt(s: string, pat: string, i: int)
  {
    0 <= i && i + |pat| <= |s| && s[i..i + |pat|] == pat
  }

  lemma {:induction false} OccursAtTail(s: string, pat: string, j: int)
    requires |s| > 0 && 1 <= j
    ensures OccursAt(s[1..], pat, j - 1) <==> OccursAt(s, pat, j)
  {
    if j + |pat| <= |s| {
      assert s[1..][j - 1..j - 1 + |pat|] == s[j..j + |pat|];
    }
  }

  /** `s.find(pat)`, with `None` for -1. */
  function Find(s: string, pat: string): (r: Option<nat>)
    requires |pat| > 0
    ensures r.Some? ==> r.value + |pat| <= |s|
    decreases |s|
  {
    if |s| < |pat| then None
    else if s[..|pat|] == pat then Some(0)
    else
      match Find(s[1..], pat)
      case None => None
      case Some(i) => Some(i + 1)
  }

  /** `s.find(pat)` is the lowest index at which `pat` occurs, and -1 only
      when it occurs nowhere. */
  lemma {:induction false} FindSpec(s: string, pat: string)
    requires |pat| > 0
    ensures Find(s, pat).Some? ==> OccursAt(s, pat, Find(s, pat).value)
    ensures Find(s, pat).Some? ==> forall j :: 0 <= j < Find(s, pat).value ==> !OccursAt(s, pat, j)
    ensures Find(s, pat).None? ==> forall j :: !OccursAt(s, pat, j)
    decreases |s|
  {
    if |s| >= |pat| && s[..|pat|] != pat {
      FindSpec(s[1..], pat);
      forall j | 1 <= j { OccursAtTail(s, pat, j); }
    }
  }

  /** The first occurrence of `pat` in `x + pat + y` is the one right after
      `x` when none starts inside `x`. */
  lemma {:induction false} FindAfterFreePrefix(x: string, pat: string, y: string)
    requires |pat| > 0
    requires forall j :: 0 <= j < |x| ==> !OccursAt(x + pat + y, pat, j)
    ensures Find(x + pat + y, pat) == Some(|x|)
  {
    var s := x + pat + y;
    assert s[|x|..|x| + |pat|] == pat;
    assert OccursAt(s, pat, |x|);
    FindSpec(s, pat);
  }

  /** `pat in s`. */
  predicate Contains(s: string, pat: string)
    requires |pat| > 0
  {
    Find(s, pat).Some?
  }

  /** `pat in s` holds exactly when `pat` occurs somewhere in `s`. */
  lemma {:induction false} ContainsIff(s: string, pat: string)
    requires |pat| > 0
    ensures Contains(s, pat) <==> exists j :: OccursAt(s, pat, j)
  {
    FindSpec(s, pat);
  }

  /** `sep.join(parts)`. */
  function Join(parts: seq<string>, sep: string): string
  {
    if |parts| == 0 then ""
    else if |parts| == 1 then parts[0]
    else parts[0] + sep + Join(parts[1..], sep)
  }

  lemma {:induction false} JoinCons(p: string, rest: seq<string>, sep: string)
    requires |rest| >= 1
    ensures Join([p] + rest, sep) == p + sep + Join(rest, sep)
  {
    assert ([p] + rest)[1..] == rest;
  }

  /** A piece cut off in front of the first occurrence of `pat` holds no occurrence. */
  lemma {:induction false} PrefixBeforeFirstIsFree(s: string, pat: string, i: nat)
    requires |pat| > 0 && i <= |s|
    requires forall j :: 0 <= j < i ==> !OccursAt(s, pat, j)
    ensures !Contains(s[..i], pat)
  {
    forall j | OccursAt(s[..i], pat, j)
      ensures false
    {
      assert s[..i][j..j + |pat|] == s[j..j + |pat|];
      assert OccursAt(s, pat, j);
    }
    ContainsIff(s[..i], pat);
  }

  /** `s.split(sep)`: cut `s` at every occurrence of `sep`, scanning left to
      right without overlaps. */
  function Split(s: string, sep: string): (parts: seq<string>)
    requires |sep| > 0
    ensures |parts| >= 1
    decreases |s|
  {
    match Find(s, sep)
    case None => [s]
    case Some(i) => [s[..i]] + Split(s[i + |sep|..], sep)
  }

  /** Splitting loses nothing: `sep.join(s.split(sep)) == s`, and no piece
      contains the separator. */
  lemma {:induction false} SplitJoin(s: string, sep: string)
    requires |sep| > 0
    ensures Join(Split(s, sep), sep) == s
    ensures forall k :: 0 <= k < |Split(s, sep)| ==> !Contains(Split(s, sep)[k], sep)
    decreases |s|
  {
    FindSpec(s, sep);
    match Find(s, sep)
    case None =>
      assert Split(s, sep) == [s];
    case Some(i) =>
      PrefixBeforeFirstIsFree(s, sep, i);
      var rest := Split(s[i + |sep|..], sep);
      assert Split(s, sep) == [s[..i]] + rest;
      SplitJoin(s[i + |sep|..], sep);
      JoinCons(s[..i], rest, sep);
      assert s == s[..i] + sep + s[i + |sep|..];
      forall k | 1 <= k < |Split(s, sep)| ensures Split(s, sep)[k] == rest[k - 1] { }
  }

  lemma {:induction false} SplitNone(s: string, sep: string)
    requires |sep| > 0 && Find(s, sep) == None
    ensures Split(s, sep) == [s]
  {
  }

  lemma {:induction false} SplitSome(s: string, sep: string, i: nat)
    requires |sep| > 0 && Find(s, sep) == Some(i)
    ensures Split(s, sep) == [s[..i]] + Split(s[i + |sep|..], sep)
  {
  }

  /** `s.split(sep)` has one piece when `sep` does not occur, and two pieces,
      the text before and after the first occurrence, when the overlap-free
      scan finds no second one; otherwise it has more than two. */
  lemma {:induction false} SplitPieces(s: string, sep: string)
    requires |sep| > 0
    ensures Find(s, sep).None? ==> Split(s, sep) == [s]
    ensures Find(s, sep).Some? ==>
              var i := Find(s, sep).value;
              var rest := s[i + |sep|..];
              && (Contains(rest, sep) ==> |Split(s, sep)| > 2)
              && (!Contains(rest, sep) ==>
                    |Split(s, sep)| == 2 && Split(s, sep)[0] == s[..i] && Split(s, sep)[1] == rest)
  {
    var f := Find(s, sep);
    if f.None? {
      SplitNone(s, sep);
    } else {
      var rest := s[f.value + |sep|..];
      SplitSome(s, sep, f.value);
      var g := Find(rest, sep);
      if g.None? {
        SplitNone(rest, sep);
      } else {
        SplitSome(rest, sep, g.value);
      }
    }
  }

  /** `s.replace(pat, rep)`: scans left to right, and every occurrence of
      `pat` that does not overlap an earlier one becomes `rep`. */
  function Replace(s: string, pat: string, rep: string): string
    requires |pat| > 0
    decreases |s|
  {
    match Find(s, pat)
    case None => s
    case Some(i) => s[..i] + rep + Replace(s[i + |pat|..], pat, rep)
  }

  /** Every occurrence is replaced: `s.replace(pat, rep)` is
      `rep.join(s.split(pat))`. */
  lemma {:induction false} ReplaceIsJoinOfSplit(s: string, pat: string, rep: string)
    requires |pat| > 0
    ensures Replace(s, pat, rep) == Join(Split(s, pat), rep)
    decreases |s|
  {
    match Find(s, pat)
    case None =>
      SplitNone(s, pat);
    case Some(i) =>
      var rest := s[i + |pat|..];
      SplitSome(s, pat, i);
      ReplaceIsJoinOfSplit(rest, pat, rep);
      JoinCons(s[..i], Split(rest, pat), rep);
  }

  /** Where `pat` does not occur, `s.replace(pat, rep)` leaves `s` as it is. */
  lemma {:induction false} ReplaceAbsent(s: string, pat: string, rep: string)
    requires |pat| > 0 && !Contains(s, pat)
    ensures Replace(s, pat, rep) == s
  {
    ReplaceIsJoinOfSplit(s, pat, rep);
  }

  /** `s.lstrip(chars)`, for the characters `chars` names. */
  function TrimStart(s: string, chars: StripChars): (r: string)
    ensures |r| <= |s|
    decreases |s|
  {
    if s != [] && Strips(chars, s[0]) then TrimStart(s[1..], chars) else s
  }

  /** `s.lstrip(chars)` drops the longest prefix of stripped characters. */
  lemma {:induction false} TrimStartSpec(s: string, chars: StripChars)
    ensures var r := TrimStart(s, chars);
            && |r| <= |s| && r == s[|s| - |r|..]
            && (r != [] ==> !Strips(chars, r[0]))
            && (forall k :: 0 <= k < |s| - |r| ==> Strips(chars, s[k]))
    decreases |s|
  {
    if s != [] && Strips(chars, s[0]) {
      TrimStartSpec(s[1..], chars);
    }
  }

  /** `s.rstrip(chars)`, for the characters `chars` names. */
  function TrimEnd(s: string, chars: StripChars): (r: string)
    ensures |r| <= |s|
    decreases |s|
  {
    if s != [] && Strips(chars, s[|s| - 1]) then TrimEnd(s[..|s| - 1], chars) else s
  }

  /** `s.rstrip(chars)` drops the longest suffix of stripped characters. */
  lemma {:induction false} TrimEndSpec(s: string, chars: StripChars)
    ensures var r := TrimEnd(s, chars);
            && |r| <= |s| && r == s[..|r|]
            && (r != [] ==> !Strips(chars, r[|r| - 1]))
            && (forall k :: |r| <= k < |s| ==> Strips(chars, s[k]))
    decreases |s|
  {
    if s != [] && Strips(chars, s[|s| - 1]) {
      TrimEndSpec(s[..|s| - 1], chars);
    }
  }

  /** `s.strip(chars)`. */
  function Strip(s: string, chars: StripChars): string
  {
    TrimEnd(TrimStart(s, chars), chars)
  }

  /** What `s.strip(chars)` leaves is a slice `s[a..b]` of `s` that neither
      begins nor ends with a stripped character, and every character before
      `a` and from `b` on is a stripped one. */
  lemma {:induction false} StripSpec(s: string, chars: StripChars)
    ensures var r := Strip(s, chars);
            var a := |s| - |TrimStart(s, chars)|;
            && a + |r| <= |s| && r == s[a..a + |r|]
            && (r != [] ==> !Strips(chars, r[0]) && !Strips(chars, r[|r| - 1]))
            && (forall k :: 0 <= k < a ==> Strips(chars, s[k]))
            && (forall k :: a + |r| <= k < |s| ==> Strips(chars, s[k]))
  {
    var t := TrimStart(s, chars);
    TrimStartSpec(s, chars);
    TrimEndSpec(t, chars);
    var r := TrimEnd(t, chars);
    var a := |s| - |t|;
    assert t == s[a..];
    assert r == s[a..a + |r|];
    forall k | a + |r| <= k < |s| ensures Strips(chars, s[k]) {
      assert s[k] == t[k - a];
    }
  }

  /** Stripping twice with the same characters changes nothing more. */
  lemma {:induction false} StripIdempotent(s: string, chars: StripChars)
    ensures Strip(Strip(s, chars), chars) == Strip(s, chars)
  {
    var r := Strip(s, chars);
    StripSpec(s, chars);
    if r != [] {
      assert TrimStart(r, chars) == r;
    }
  }

  /** The argument of `strip`: none, meaning whitespace, or a string of
      characters to remove. */
  datatype StripChars = Whitespace | Chars(cs: set<char>)

  predicate Strips(chars: StripChars, c: char)
  {
    match chars
    case Whitespace => IsPySpace(c)
    case Chars(cs) => c in cs
  }

  /** The characters Python's `str.isspace()` accepts, which `s.strip()` with
      no argument removes. */
  predicate IsPySpace(c: char)
  {
    || '\t' <= c <= '\r'
    || '\U{1C}' <= c <= ' '
    || c == '\U{85}' || c == '\U{A0}' || c == '\U{1680}'
    || '\U{2000}' <= c <= '\U{200A}'
    || c == '\U{2028}' || c == '\U{2029}' || c == '\U{202F}' || c == '\U{205F}' || c == '\U{3000}'
  }
}
