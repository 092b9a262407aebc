/**
  The pieces of Python's `str` and `pathlib.PurePosixPath` that the download
  pipeline relies on, written out over `seq<char>`: `strip()`, `sub in s`,
  `s.split(sep)`, `s.split()`, `Path(p).name` and `Path(p).stem`.
 */
module Text {

  import opened Wrappers

  /** The last element of a non-empty sequence (Python's `xs[-1]`). */
  function Last<T>(xs: seq<T>): T
    requires |xs| > 0
  {
    xs[|xs| - 1]
  }

  /** The first `i + 1` elements are the first `i` and then the `i`-th. */
  lemma TakeOneMore<T>(xs: seq<T>, i: nat)
    requires i < |xs|
    ensures xs[..i + 1] == xs[..i] + [xs[i]]
  {
  }

  /** A concatenation splits back into its two parts. */
  lemma ConcatParts<T>(a: seq<T>, b: seq<T>)
    ensures |a + b| == |a| + |b| && (a + b)[..|a|] == a && (a + b)[|a|..] == b
  {
  }

  /** Python's `str.isspace()` for one character. */
  predicate IsSpace(c: char)
  {
    || ('\t' <= c <= '\r')
    || ('\U{1C}' <= c <= ' ')
    || c == '\U{85}' || c == '\U{A0}' || c == '\U{1680}'
    || ('\U{2000}' <= c <= '\U{200A}')
    || c == '\U{2028}' || c == '\U{2029}' || c == '\U{202F}' || c == '\U{205F}' || c == '\U{3000}'
  }

  /** `s.lstrip()` */
  function TrimStart(s: string): (r: string)
    ensures |r| <= |s| && r == s[|s| - |r|..]
    ensures forall k :: 0 <= k < |s| - |r| ==> IsSpace(s[k])
    ensures r == "" || !IsSpace(r[0])
    decreases |s|
  {
    if s != [] && IsSpace(s[0]) then TrimStart(s[1..]) else s
  }

  /** `s.rstrip()` */
  function TrimEnd(s: string): (r: string)
    ensures |r| <= |s| && r == s[..|r|]
    ensures forall k :: |r| <= k < |s| ==> IsSpace(s[k])
    ensures r == "" || !IsSpace(r[|r| - 1])
    decreases |s|
  {
    if s != [] && IsSpace(s[|s| - 1]) then TrimEnd(s[..|s| - 1]) else s
  }

  /** `s.strip()`: whitespace removed at both ends and nowhere else. */
  function Strip(s: string): (r: string)
    ensures |r| <= |s|
    ensures r == "" || (!IsSpace(r[0]) && !IsSpace(r[|r| - 1]))
  {
    TrimEnd(TrimStart(s))
  }

  /** A string that starts and ends with a non-space is its own `strip()`. */
  lemma StripUnpadded(s: string)
    requires s == "" || (!IsSpace(s[0]) && !IsSpace(s[|s| - 1]))
    ensures Strip(s) == s
  {
  }

  /** `sub` occurs in `s` starting at position `i`. */
  predicate OccursAt(s: string, sub: string, i: int)
  {
    0 <= i && i + |sub| <= |s| && s[i..i + |sub|] == sub
  }

  /** Python's `sub in s`. */
  predicate Contains(s: string, sub: string)
  {
    exists i :: 0 <= i <= |s| - |sub| && OccursAt(s, sub, i)
  }

  /** An occurrence with none before it is the one `str.find` reports. */
  lemma IndexOfAt(s: string, sub: string, i: nat)
    requires OccursAt(s, sub, i)
    requires forall j :: 0 <= j < i ==> !OccursAt(s, sub, j)
    ensures IndexOf(s, sub) == Some(i)
  {
  }

  /** No occurrence of `sub` starts where its first character is absent. */
  lemma NoLeadNoOccurrence(s: string, sub: string, j: int)
    requires sub != "" && 0 <= j < |s| && s[j] != sub[0]
    ensures !OccursAt(s, sub, j)
  {
    if j + |sub| <= |s| {
      assert s[j..j + |sub|][0] == s[j];
    }
  }

  /** A string without the first character of `sub` does not contain `sub`. */
  lemma NoLeadNotContained(s: string, sub: string)
    requires sub != "" && sub[0] !in s
    ensures !Contains(s, sub)
  {
    forall i | 0 <= i < |s|
      ensures !OccursAt(s, sub, i)
    {
      assert s[i] in s;
      NoLeadNoOccurrence(s, sub, i);
    }
  }

  /** The run that ends `s` begins right after the last whitespace of `s`. */
  lemma RunAfterSpace(s: string, l: string, n: nat)
    requires EndsRun(s, l) && NoSpace(l)
    requires 0 < n <= |s| && IsSpace(s[n - 1])
    requires forall k :: n <= k < |s| ==> !IsSpace(s[k])
    ensures l == s[n..]
  {
    NoSpaceSuffix(s, l);
  }

  /** The last word of text that ends in a space and a word is that word. */
  lemma LastWordAfterSpace(p: string, w: string)
    requires w != "" && NoSpace(w)
    ensures Words(p + " " + w) != [] && Last(Words(p + " " + w)) == w
  {
    var s := p + " " + w;
    var n := |p| + 1;
    assert s[n..] == w && s[n - 1] == ' ';
    NoSpaceSuffix(s, w);
    WordsShape(s);
    TrimEndUnique(s, |s|);
    var l := Last(Words(s));
    assert l in Words(s);
    RunAfterSpace(s, l, n);
  }

  /** A suffix without whitespace puts none at the end of the text. */
  lemma NoSpaceSuffix(s: string, w: string)
    requires |w| <= |s| && s[|s| - |w|..] == w && NoSpace(w)
    ensures forall j :: |s| - |w| <= j < |s| ==> !IsSpace(s[j])
  {
    var b := |s| - |w|;
    forall j | b <= j < |s|
      ensures !IsSpace(s[j])
    {
      assert s[j] == w[j - b];
    }
  }

  /** `Path(n + "." + ext).stem` is `n` for a plain name `n` and an extension `ext` without dots. */
  lemma StemOfDotted(n: string, ext: string)
    requires n != "" && ext != ""
    requires '/' !in n && '/' !in ext && '.' !in ext
    ensures Stem(n + "." + ext) == n && Suffix(n + "." + ext) == "." + ext
  {
    var p := n + "." + ext;
    var i := |n|;
    assert '/' !in p;
    assert BaseName(p) == p;
    assert forall j :: i < j < |p| ==> p[j] != '.' by {
      forall j | i < j < |p|
        ensures p[j] != '.'
      {
        assert p[j] == ext[j - i - 1];
      }
    }
    StemAndSuffix(p);
    assert p[..i] == n && p[i..] == "." + ext;
  }

  /** What occurs in a prefix occurs in the whole. */
  lemma ContainsInPrefix(a: string, b: string, sub: string)
    requires Contains(a, sub)
    ensures Contains(a + b, sub)
  {
    var i :| 0 <= i <= |a| - |sub| && OccursAt(a, sub, i);
    assert (a + b)[i..i + |sub|] == a[i..i + |sub|];
    assert OccursAt(a + b, sub, i);
  }

  /** A string occurs wherever it is spliced in. */
  lemma OccursSpliced(a: string, b: string, c: string)
    ensures OccursAt(a + b + c, b, |a|) && Contains(a + b + c, b)
  {
    var s := a + b + c;
    assert s[|a|..|a| + |b|] == b;
    assert OccursAt(s, b, |a|);
  }

  /** Two adjacent occurrences make one occurrence of the concatenation. */
  lemma OccursAdjacent(s: string, a: string, b: string, p: int)
    requires OccursAt(s, a, p) && OccursAt(s, b, p + |a|)
    ensures OccursAt(s, a + b, p)
  {
    assert s[p..p + |a| + |b|] == s[p..p + |a|] + s[p + |a|..p + |a| + |b|];
  }

  /** `s.find(sub)`: the leftmost occurrence of `sub`, if any. */
  function IndexOf(s: string, sub: string): (r: Option<nat>)
    ensures r.None? <==> !Contains(s, sub)
    ensures r.Some? ==> OccursAt(s, sub, r.value)
    ensures r.Some? ==> forall j :: 0 <= j < r.value ==> !OccursAt(s, sub, j)
    decreases |s|
  {
    if |s| < |sub| then None
    else if s[..|sub|] == sub then
      assert OccursAt(s, sub, 0);
      Some(0)
    else
      assert forall i {:trigger OccursAt(s, sub, i)} :: 1 <= i ==> (OccursAt(s, sub, i) <==> OccursAt(s[1..], sub, i - 1));
      match IndexOf(s[1..], sub)
      case None => None
      case Some(k) =>
        assert OccursAt(s, sub, k + 1);
        Some(k + 1)
  }

  /** `sep.join(pieces)` */
  function Join(pieces: seq<string>, sep: string): string
  {
    if |pieces| == 0 then ""
    else if |pieces| == 1 then pieces[0]
    else pieces[0] + sep + Join(pieces[1..], sep)
  }

  /**
    `s.split(sep)` for a non-empty separator: the pieces between the
    leftmost non-overlapping occurrences of `sep`; there are at least two
    pieces exactly when `sep` occurs in `s`.
   */
  function Split(s: string, sep: string): (r: seq<string>)
    requires sep != ""
    ensures |r| >= 1
    ensures |r| >= 2 <==> Contains(s, sep)
    decreases |s|
  {
    match IndexOf(s, sep)
    case None => [s]
    case Some(i) => [s[..i]] + Split(s[i + |sep|..], sep)
  }

  /** Where `sep` first occurs, `s.split(sep)` is the text before it followed by the split of the rest. */
  lemma SplitAtFirst(s: string, sep: string, i: nat)
    requires sep != "" && IndexOf(s, sep) == Some(i)
    ensures Split(s, sep) == [s[..i]] + Split(s[i + |sep|..], sep)
  {
  }

  /** A string is the text before an occurrence, the occurrence, and the text after it. */
  lemma AroundOccurrence(s: string, sub: string, i: int)
    requires OccursAt(s, sub, i)
    ensures s == s[..i] + sub + s[i + |sub|..]
  {
  }

  /** The text before the leftmost occurrence of `sub` does not contain `sub`. */
  lemma BeforeFirstIsFree(s: string, sub: string, i: nat)
    requires sub != "" && IndexOf(s, sub) == Some(i)
    ensures !Contains(s[..i], sub)
  {
    assert forall j {:trigger OccursAt(s[..i], sub, j)} :: OccursAt(s[..i], sub, j) ==> OccursAt(s, sub, j);
  }

  /** Joining the pieces of `s.split(sep)` with `sep` gives back `s`. */
  lemma {:induction false} SplitJoin(s: string, sep: string)
    requires sep != ""
    ensures Join(Split(s, sep), sep) == s
    decreases |s|
  {
    match IndexOf(s, sep)
    case None =>
    case Some(i) =>
      SplitAtFirst(s, sep, i);
      AroundOccurrence(s, sep, i);
      SplitJoin(s[i + |sep|..], sep);
      assert Split(s, sep)[1..] == Split(s[i + |sep|..], sep);
  }

  /** An occurrence inside a suffix is an occurrence in the whole string. */
  lemma OccursInSuffix(s: string, sub: string, c: nat, x: int)
    requires c <= |s| && OccursAt(s[c..], sub, x)
    ensures OccursAt(s, sub, c + x)
  {
    assert s[c..][x..x + |sub|] == s[c + x..c + x + |sub|];
  }

  /** The last piece of `s.split(sep)` (Python's `s.split(sep)[-1]`) is a suffix of `s`. */
  lemma {:induction false} LastPieceIsSuffix(s: string, sep: string)
    requires sep != ""
    ensures |Last(Split(s, sep))| <= |s|
    ensures Last(Split(s, sep)) == s[|s| - |Last(Split(s, sep))|..]
    decreases |s|
  {
    match IndexOf(s, sep)
    case None =>
      SplitWithoutSep(s, sep);
    case Some(i) =>
      var rest := s[i + |sep|..];
      LastPieceAfterFirst(s, sep, i);
      LastPieceIsSuffix(rest, sep);
      SuffixOfSuffix(s, i + |sep|, Last(Split(rest, sep)));
  }

  /** Without `sep`, `s.split(sep)` is `[s]`. */
  lemma SplitWithoutSep(s: string, sep: string)
    requires sep != "" && IndexOf(s, sep).None?
    ensures Split(s, sep) == [s] && Last(Split(s, sep)) == s
  {
  }

  /** The last piece of `s.split(sep)` is the last piece of the split of the text after the leftmost `sep`. */
  lemma LastPieceAfterFirst(s: string, sep: string, i: nat)
    requires sep != "" && IndexOf(s, sep) == Some(i)
    ensures Last(Split(s, sep)) == Last(Split(s[i + |sep|..], sep))
  {
    SplitAtFirst(s, sep, i);
    LastOfCons(s[..i], Split(s[i + |sep|..], sep));
  }

  /** Putting an element in front does not change the last one. */
  lemma LastOfCons<T>(x: T, xs: seq<T>)
    requires |xs| > 0
    ensures Last([x] + xs) == Last(xs)
  {
  }

  /** A suffix of a suffix is a suffix. */
  lemma SuffixOfSuffix(s: string, c: nat, last: string)
    requires c <= |s| && |last| <= |s| - c && last == s[c..][|s| - c - |last|..]
    ensures |last| <= |s| && last == s[|s| - |last|..]
  {
    assert s[c..][|s| - c - |last|..] == s[|s| - |last|..];
  }

  /** Where the last piece of `s.split(sep)` starts: just after the last separator the split consumes. */
  function LastPieceStart(s: string, sep: string): (r: nat)
    requires sep != ""
    ensures r <= |s|
  {
    LastPieceIsSuffix(s, sep);
    |s| - |Last(Split(s, sep))|
  }

  /** The last piece of `s.split(sep)` is the text from `LastPieceStart` on. */
  lemma LastPieceFromStart(s: string, sep: string)
    requires sep != ""
    ensures Last(Split(s, sep)) == s[LastPieceStart(s, sep)..]
  {
    LastPieceIsSuffix(s, sep);
  }

  /** The last piece of `s.split(sep)` holds no `sep`. */
  lemma {:induction false} LastPieceIsFree(s: string, sep: string)
    requires sep != ""
    ensures !Contains(Last(Split(s, sep)), sep)
    decreases |s|
  {
    match IndexOf(s, sep)
    case None =>
      SplitWithoutSep(s, sep);
    case Some(i) =>
      LastPieceAfterFirst(s, sep, i);
      LastPieceIsFree(s[i + |sep|..], sep);
  }

  /** Joining two or more pieces puts `sep` between the join of all but the last and the last. */
  lemma {:induction false} JoinLast(pieces: seq<string>, sep: string)
    requires |pieces| >= 2
    ensures Join(pieces, sep) == Join(pieces[..|pieces| - 1], sep) + sep + Last(pieces)
    decreases |pieces|
  {
    if |pieces| > 2 {
      JoinLast(pieces[1..], sep);
      assert pieces[1..][..|pieces| - 2] == pieces[..|pieces| - 1][1..];
    }
  }

  /** When `sep` occurs in `s`, it stands right before `LastPieceStart`. */
  lemma SepBeforeLastPiece(s: string, sep: string)
    requires sep != "" && Contains(s, sep)
    ensures |sep| <= LastPieceStart(s, sep)
    ensures OccursAt(s, sep, LastPieceStart(s, sep) - |sep|)
  {
    var pieces := Split(s, sep);
    SplitJoin(s, sep);
    LastPieceFromStart(s, sep);
    JoinLast(pieces, sep);
    var before := Join(pieces[..|pieces| - 1], sep);
    OccursSpliced(before, sep, Last(pieces));
    assert |before| + |sep| == LastPieceStart(s, sep);
  }

  /**
    The last piece of `s.split(sep)` is the suffix of `s` after the last
    separator the split consumes, and holds no `sep`; it is all of `s` when
    `sep` does not occur.
   */
  lemma SplitLastPiece(s: string, sep: string)
    requires sep != ""
    ensures Last(Split(s, sep)) == s[LastPieceStart(s, sep)..]
    ensures !Contains(Last(Split(s, sep)), sep)
    ensures !Contains(s, sep) ==> LastPieceStart(s, sep) == 0
    ensures Contains(s, sep) ==> |sep| <= LastPieceStart(s, sep) && OccursAt(s, sep, LastPieceStart(s, sep) - |sep|)
  {
    LastPieceFromStart(s, sep);
    LastPieceIsFree(s, sep);
    if Contains(s, sep) {
      SepBeforeLastPiece(s, sep);
    }
  }

  /**
    The first piece of `s.split(sep)` (Python's `s.split(sep)[0]`) is the
    text before the leftmost `sep`, all of `s` when there is none.
   */
  lemma SplitFirstPiece(s: string, sep: string)
    requires sep != ""
    ensures var p := Split(s, sep)[0]; !Contains(p, sep) && |p| <= |s| && p == s[..|p|]
    ensures Contains(s, sep) ==> OccursAt(s, sep, |Split(s, sep)[0]|)
  {
    match IndexOf(s, sep)
    case None =>
    case Some(i) =>
      SplitAtFirst(s, sep, i);
      BeforeFirstIsFree(s, sep, i);
  }

  /** `w` holds no whitespace character. */
  predicate NoSpace(w: string)
  {
    forall j :: 0 <= j < |w| ==> !IsSpace(w[j])
  }

  /** The longest prefix of `s` without whitespace. */
  function TakeWord(s: string): (r: string)
    ensures |r| <= |s| && r == s[..|r|]
    ensures NoSpace(r)
    ensures |r| < |s| ==> IsSpace(s[|r|])
    ensures s != "" && !IsSpace(s[0]) ==> r != ""
    decreases |s|
  {
    if s == [] || IsSpace(s[0]) then "" else [s[0]] + TakeWord(s[1..])
  }

  /** `s.split()`: the maximal runs of non-whitespace, left to right. */
  function Words(s: string): (r: seq<string>)
    ensures forall w :: w in r ==> w != "" && NoSpace(w)
    decreases |s|
  {
    var t := TrimStart(s);
    if t == "" then []
    else
      var w := TakeWord(t);
      assert w != "" && NoSpace(w);
      DropShortens(t, |w|);
      [w] + Words(t[|w|..])
  }

  /**
    `w` is the run of non-whitespace that ends `t`: a suffix of `t` that is
    either all of `t` or preceded by whitespace.
   */
  predicate EndsRun(t: string, w: string)
  {
    |w| <= |t| && w == t[|t| - |w|..] && (|w| == |t| || IsSpace(t[|t| - |w| - 1]))
  }

  /** The `rstrip()` of `s` is `s[..n]` when `s[..n]` ends with a non-space and only whitespace follows it. */
  lemma TrimEndUnique(s: string, n: nat)
    requires n <= |s| && (n == 0 || !IsSpace(s[n - 1]))
    requires forall k :: n <= k < |s| ==> IsSpace(s[k])
    ensures TrimEnd(s) == s[..n]
  {
  }

  /** A word between whitespace (or the start) and trailing whitespace is the run that ends the `rstrip()`. */
  lemma EndsRunOfWord(sp: string, w: string, rest: string)
    requires sp == "" || IsSpace(sp[|sp| - 1])
    requires w != "" && !IsSpace(w[|w| - 1])
    requires forall k :: 0 <= k < |rest| ==> IsSpace(rest[k])
    ensures EndsRun(TrimEnd(sp + w + rest), w)
  {
    var s := sp + w + rest;
    var b := |sp| + |w|;
    assert s[b - 1] == w[|w| - 1];
    assert forall k :: b <= k < |s| ==> s[k] == rest[k - b];
    TrimEndUnique(s, b);
    assert TrimEnd(s) == sp + w;
  }

  /** Text ending in a non-space, put before a whitespace-led `rest`, leaves the run ending `rest.rstrip()` unchanged. */
  lemma EndsRunAfter(p: string, rest: string, l: string)
    requires p != "" && !IsSpace(p[|p| - 1])
    requires rest != "" && IsSpace(rest[0])
    requires TrimEnd(rest) != ""
    requires l != "" && NoSpace(l) && EndsRun(TrimEnd(rest), l)
    ensures EndsRun(TrimEnd(p + rest), l)
  {
    var e := TrimEnd(rest);
    TrimEndOfConcat(p, rest);
    assert e[0] == rest[0];
    RunShorter(e, l);
    EndsRunUnderPrefix(p, e, l);
  }

  /** A run without whitespace is shorter than text that starts with whitespace. */
  lemma RunShorter(e: string, l: string)
    requires e != "" && IsSpace(e[0])
    requires EndsRun(e, l) && NoSpace(l)
    ensures |l| < |e|
  {
    NoSpaceSuffix(e, l);
  }

  /** Putting text in front of `rest` puts it in front of `rest.rstrip()`, unless `rest` is all whitespace. */
  lemma TrimEndOfConcat(p: string, rest: string)
    requires TrimEnd(rest) != ""
    ensures TrimEnd(p + rest) == p + TrimEnd(rest)
  {
    var s := p + rest;
    var b := |p|;
    var m := |TrimEnd(rest)|;
    assert s[b + m - 1] == rest[m - 1];
    assert forall k :: b + m <= k < |s| ==> IsSpace(s[k]);
    TrimEndUnique(s, b + m);
  }

  /** A word that does not reach the start of `e` still ends `p + e`. */
  lemma EndsRunUnderPrefix(p: string, e: string, l: string)
    requires EndsRun(e, l) && |l| < |e|
    ensures EndsRun(p + e, l)
  {
    var m := |e|;
    assert (p + e)[|p| + m - |l| - 1] == e[m - |l| - 1];
    assert (p + e)[|p| + m - |l|..] == e[m - |l|..];
  }

  /**
    `s.split()` is empty exactly when `s` is all whitespace, and otherwise
    its last word is the run of non-whitespace that ends `s.rstrip()`:
    `s.split()[-1]` is the last whitespace-separated token of `s`.
   */
  lemma {:induction false} WordsShape(s: string)
    ensures Words(s) == [] <==> forall k :: 0 <= k < |s| ==> IsSpace(s[k])
    ensures Words(s) != [] ==> EndsRun(TrimEnd(s), Last(Words(s)))
    decreases |s|
  {
    var t := TrimStart(s);
    var a := |s| - |t|;
    if t != "" {
      assert s[a] == t[0];
      var w := TakeWord(t);
      DropShortens(t, |w|);
      var rest := t[|w|..];
      assert Words(s) == [w] + Words(rest);
      var sp := s[..a];
      ThreeParts(s, t, w, rest);
      WordsShape(rest);
      if Words(rest) == [] {
        EndsRunOfWord(sp, w, rest);
      } else {
        LastOfCons(w, Words(rest));
        assert s == (sp + w) + rest;
        EndsRunAfter(sp + w, rest, Last(Words(rest)));
      }
    }
  }

  /** A sequence is its prefix, then the head and the tail of the suffix that follows. */
  lemma ThreeParts<T>(s: seq<T>, t: seq<T>, w: seq<T>, rest: seq<T>)
    requires |t| <= |s| && t == s[|s| - |t|..]
    requires |w| <= |t| && w == t[..|w|] && rest == t[|w|..]
    ensures s == s[..|s| - |t|] + w + rest
  {
    assert t == w + rest;
  }

  /** Dropping a non-empty prefix shortens a string. */
  lemma DropShortens(t: string, n: nat)
    requires 0 < n <= |t|
    ensures |t[n..]| < |t|
  {
  }

  /** `s.rfind(c)`: the rightmost position of `c`, if any. */
  function RFind(s: string, c: char): (r: Option<nat>)
    ensures r.None? <==> c !in s
    ensures r.Some? ==> r.value < |s| && s[r.value] == c
    ensures r.Some? ==> forall j :: r.value < j < |s| ==> s[j] != c
    decreases |s|
  {
    if s == [] then None
    else if s[|s| - 1] == c then Some(|s| - 1)
    else RFind(s[..|s| - 1], c)
  }

  /** `PurePosixPath(p).name`: the text after the last `/`. */
  function BaseName(p: string): (r: string)
    ensures '/' !in r
    ensures |r| <= |p| && r == p[|p| - |r|..]
    ensures r == p || (|r| < |p| && p[|p| - |r| - 1] == '/')
  {
    match RFind(p, '/')
    case None => p
    case Some(i) => p[i + 1..]
  }

  /**
    `PurePosixPath(p).stem`: the name without its suffix, where the suffix
    starts at the last `.` of the name provided that dot is neither the first
    nor the last character of the name.
   */
  function Stem(p: string): string
  {
    var n := BaseName(p);
    match RFind(n, '.')
    case Some(i) => if 0 < i < |n| - 1 then n[..i] else n
    case None => n
  }

  /** `PurePosixPath(p).suffix`, the part of the name that `Stem` drops. */
  function Suffix(p: string): string
  {
    var n := BaseName(p);
    match RFind(n, '.')
    case Some(i) => if 0 < i < |n| - 1 then n[i..] else ""
    case None => ""
  }

  /**
    The name is the stem followed by the suffix; a non-empty suffix is a dot
    and at least one more character, none of them a dot; the stem is only
    empty when the name is.
   */
  lemma StemAndSuffix(p: string)
    ensures BaseName(p) == Stem(p) + Suffix(p)
    ensures Suffix(p) != "" ==> |Suffix(p)| >= 2 && Suffix(p)[0] == '.' && '.' !in Suffix(p)[1..]
    ensures Stem(p) == "" <==> BaseName(p) == ""
    ensures var n := BaseName(p);
      forall i :: 0 < i < |n| - 1 && n[i] == '.' && (forall j :: i < j < |n| ==> n[j] != '.') ==>
        Stem(p) == n[..i] && Suffix(p) == n[i..]
  {
    var n := BaseName(p);
    forall i | 0 < i < |n| - 1 && n[i] == '.' && (forall j :: i < j < |n| ==> n[j] != '.')
      ensures Stem(p) == n[..i] && Suffix(p) == n[i..]
    {
      assert n[i] in n;
      var k := RFind(n, '.').value;
      assert k == i;
    }
    match RFind(n, '.')
    case Some(i) =>
      if 0 < i < |n| - 1 {
        SplitAtLastDot(n, i);
      }
    case None =>
  }

  /** Cutting a name at its last dot, neither first nor last, gives a non-empty stem and a dotted suffix. */
  lemma SplitAtLastDot(n: string, i: nat)
    requires 0 < i < |n| - 1 && n[i] == '.'
    requires forall j :: i < j < |n| ==> n[j] != '.'
    ensures n == n[..i] + n[i..] && n[..i] != ""
    ensures |n[i..]| >= 2 && n[i..][0] == '.' && '.' !in n[i..][1..]
  {
    assert n == n[..i] + n[i..];
    forall c | c in n[i..][1..] ensures c != '.' {
      var k :| 0 <= k < |n[i..][1..]| && n[i..][1..][k] == c;
      assert n[i + 1 + k] == c;
    }
  }
}
