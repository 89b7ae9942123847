/**
 * Character classes, case mapping, trimming, splitting and joining as the
 * bridge's Python code uses them (`str.isspace`, `str.isprintable`,
 * `str.upper`, `str.lower`, `str.strip`, `str.split`, `in`, `str.join`).
 * Characters are classified exactly as Python does on ASCII; every character
 * above U+007F is treated as printable, not whitespace and without case.
 */
module Text {
  import opened Optional

  /** `str.isspace()` on ASCII: TAB, LF, VT, FF, CR, the separators U+001C..U+001F, SPACE. */
  predicate IsSpace(c: char) {
    9 <= c as int <= 13 || 28 <= c as int <= 32
  }

  predicate NotSpace(c: char) {
    !IsSpace(c)
  }

  /** `str.isprintable()` on ASCII: SPACE through `~`; DEL and the C0 controls are not printable. */
  predicate IsPrintable(c: char) {
    32 <= c as int <= 126 || 128 <= c as int
  }

  predicate IsUpperLetter(c: char) {
    'A' <= c <= 'Z'
  }

  predicate IsLowerLetter(c: char) {
    'a' <= c <= 'z'
  }

  function UpperChar(c: char): char {
    if IsLowerLetter(c) then (c as int - 32) as char else c
  }

  function LowerChar(c: char): char {
    if IsUpperLetter(c) then (c as int + 32) as char else c
  }

  function MapChars(s: string, f: char -> char): string {
    seq(|s|, i requires 0 <= i < |s| => f(s[i]))
  }

  /** `s.upper()` */
  function Upper(s: string): string {
    MapChars(s, UpperChar)
  }

  /** `s.lower()` */
  function Lower(s: string): string {
    MapChars(s, LowerChar)
  }

  predicate NotLowerLetter(c: char) {
    !IsLowerLetter(c)
  }

  predicate IsLowerCase(s: string) {
    forall i :: 0 <= i < |s| ==> !IsUpperLetter(s[i])
  }

  predicate IsUpperCase(s: string) {
    forall i :: 0 <= i < |s| ==> NotLowerLetter(s[i])
  }

  lemma CaseChar(c: char)
    ensures !IsLowerLetter(UpperChar(c)) && !IsUpperLetter(LowerChar(c))
    ensures LowerChar(UpperChar(c)) == LowerChar(c) && UpperChar(LowerChar(c)) == UpperChar(c)
    ensures UpperChar(UpperChar(c)) == UpperChar(c) && LowerChar(LowerChar(c)) == LowerChar(c)
    ensures !IsUpperLetter(c) ==> LowerChar(c) == c
    ensures !IsLowerLetter(c) ==> UpperChar(c) == c
  {
    assert 'a' as int == 97 && 'z' as int == 122 && 'A' as int == 65 && 'Z' as int == 90;
  }

  lemma UpperIsUpperCase(s: string)
    ensures IsUpperCase(Upper(s))
  {
    forall i | 0 <= i < |s| ensures !IsLowerLetter(Upper(s)[i]) {
      CaseChar(s[i]);
    }
  }

  lemma LowerIsLowerCase(s: string)
    ensures IsLowerCase(Lower(s))
  {
    forall i | 0 <= i < |s| ensures !IsUpperLetter(Lower(s)[i]) {
      CaseChar(s[i]);
    }
  }

  /** Lower-casing after upper-casing forgets the original case: `s.upper().lower() == s.lower()`. */
  lemma LowerOfUpper(s: string)
    ensures Lower(Upper(s)) == Lower(s)
  {
    forall i | 0 <= i < |s| ensures Lower(Upper(s))[i] == Lower(s)[i] {
      CaseChar(s[i]);
    }
  }

  lemma UpperOfLower(s: string)
    ensures Upper(Lower(s)) == Upper(s)
  {
    forall i | 0 <= i < |s| ensures Upper(Lower(s))[i] == Upper(s)[i] {
      CaseChar(s[i]);
    }
  }

  lemma UpperIdempotent(s: string)
    ensures Upper(Upper(s)) == Upper(s)
  {
    forall i | 0 <= i < |s| ensures Upper(Upper(s))[i] == Upper(s)[i] {
      CaseChar(s[i]);
    }
  }

  /** A string that has no upper-case letter is its own lower-case form, and only such a string is. */
  lemma LowerFixedPoint(s: string)
    ensures Lower(s) == s <==> IsLowerCase(s)
  {
    if Lower(s) == s {
      forall i | 0 <= i < |s| ensures !IsUpperLetter(s[i]) {
        assert Lower(s)[i] == s[i];
        CaseChar(s[i]);
      }
    }
    if IsLowerCase(s) {
      forall i | 0 <= i < |s| ensures Lower(s)[i] == s[i] {
        CaseChar(s[i]);
      }
    }
  }

  /** `t` is the lower-case form of `s` when it is so character by character. */
  lemma LowerWord(s: string, t: string)
    requires |s| == |t| && forall i :: 0 <= i < |s| ==> LowerChar(s[i]) == t[i]
    ensures Lower(s) == t
  {
  }

  // ---------------------------------------------------------------------
  // Filtering and trimming

  /** The characters of `s` that satisfy `keep`, in order (a generator inside `''.join(...)`). */
  function Filter(s: string, keep: char -> bool): (r: string)
    ensures |r| <= |s|
    ensures forall i :: 0 <= i < |r| ==> keep(r[i])
    ensures (forall i :: 0 <= i < |s| ==> keep(s[i])) ==> r == s
    ensures (forall i :: 0 <= i < |s| ==> !keep(s[i])) ==> r == []
    decreases |s|
  {
    if s == [] then [] else (if keep(s[0]) then [s[0]] else []) + Filter(s[1..], keep)
  }

  lemma {:induction false} FilterAppend(a: string, b: string, keep: char -> bool)
    ensures Filter(a + b, keep) == Filter(a, keep) + Filter(b, keep)
    decreases |a|
  {
    if a == [] {
      assert a + b == b;
    } else {
      assert (a + b)[1..] == a[1..] + b;
      FilterAppend(a[1..], b, keep);
    }
  }

  /** `s.lstrip(chars)`: drop the longest prefix whose characters satisfy `drop`. */
  function TrimStart(s: string, drop: char -> bool): (r: string)
    ensures |r| <= |s| && r == s[|s| - |r|..]
    ensures forall i :: 0 <= i < |s| - |r| ==> drop(s[i])
    ensures r == [] || !drop(r[0])
    decreases |s|
  {
    if s != [] && drop(s[0]) then TrimStart(s[1..], drop) else s
  }

  /** `s.rstrip(chars)`: drop the longest suffix whose characters satisfy `drop`. */
  function TrimEnd(s: string, drop: char -> bool): (r: string)
    ensures |r| <= |s| && r == s[..|r|]
    ensures forall i :: |r| <= i < |s| ==> drop(s[i])
    ensures r == [] || !drop(r[|r| - 1])
    decreases |s|
  {
    if s != [] && drop(s[|s| - 1]) then TrimEnd(s[..|s| - 1], drop) else s
  }

  /** `s.strip(chars)` */
  function Strip(s: string, drop: char -> bool): string {
    TrimEnd(TrimStart(s, drop), drop)
  }

  /** A text neither of whose ends would be stripped is left as it is. */
  lemma StripKeeps(s: string, drop: char -> bool)
    requires s != [] && !drop(s[0]) && !drop(s[|s| - 1])
    ensures Strip(s, drop) == s
  {
    var t := TrimStart(s, drop);
    assert |t| == |s|;
    assert t == s;
    var u := TrimEnd(t, drop);
    assert |u| == |t|;
  }

  /** `s.strip()` with no argument strips whitespace. */
  function Trim(s: string): string {
    Strip(s, IsSpace)
  }

  /** After `strip(chars)` neither end is one of the stripped characters. */
  lemma StripEdges(s: string, drop: char -> bool)
    ensures var r := Strip(s, drop); r == [] || (!drop(r[0]) && !drop(r[|r| - 1]))
  {
    var u := TrimStart(s, drop);
    var t := TrimEnd(u, drop);
    if t != [] {
      assert t[0] == u[0];
    }
  }

  /** What is stripped keeps only characters of the text, so a class all of them belong to covers it. */
  lemma StripWithin(s: string, drop: char -> bool, p: char -> bool)
    requires All(s, p)
    ensures All(Strip(s, drop), p) && |Strip(s, drop)| <= |s|
  {
    var t := TrimStart(s, drop);
    AllSlice(s, p, |s| - |t|, |s|);
    var u := TrimEnd(t, drop);
    AllSlice(t, p, 0, |u|);
  }

  /** Upper-casing leaves a text without lower-case letters as it is. */
  lemma UpperFixedPoint(s: string)
    requires IsUpperCase(s)
    ensures Upper(s) == s
  {
    forall i | 0 <= i < |s| ensures Upper(s)[i] == s[i] {
      CaseChar(s[i]);
    }
  }

  /** An upper-cased word is still a word. */
  lemma UpperWord(w: string)
    requires IsWord(w)
    ensures IsWord(Upper(w))
  {
    UpperKeepsSpaces(w);
  }

  /** Upper-casing two words joined by a space upper-cases each. */
  lemma UpperSpaced(a: string, b: string)
    ensures Upper(a + " " + b) == Upper(a) + " " + Upper(b)
  {
    MapCharsAppend(a + " ", b, UpperChar);
    MapCharsAppend(a, " ", UpperChar);
    assert Upper(" ")[0] == UpperChar(' ') == ' ';
  }

  /** Upper-casing turns no character into whitespace and no whitespace into anything else. */
  lemma UpperKeepsSpaces(s: string)
    ensures forall i :: 0 <= i < |s| ==> IsSpace(Upper(s)[i]) == IsSpace(s[i])
  {
    forall i | 0 <= i < |s| ensures IsSpace(Upper(s)[i]) == IsSpace(s[i]) {
      assert Upper(s)[i] == UpperChar(s[i]);
      assert 'a' as int == 97 && 'z' as int == 122;
    }
  }

  /** Stripping is the same before or after a character map that keeps the dropped class. */
  lemma {:induction false} TrimStartMap(s: string, drop: char -> bool, f: char -> char)
    requires forall c :: drop(f(c)) == drop(c)
    ensures TrimStart(MapChars(s, f), drop) == MapChars(TrimStart(s, drop), f)
    decreases |s|
  {
    var m := MapChars(s, f);
    if s != [] && drop(s[0]) {
      assert m[1..] == MapChars(s[1..], f);
      TrimStartMap(s[1..], drop, f);
    }
  }

  lemma {:induction false} TrimEndMap(s: string, drop: char -> bool, f: char -> char)
    requires forall c :: drop(f(c)) == drop(c)
    ensures TrimEnd(MapChars(s, f), drop) == MapChars(TrimEnd(s, drop), f)
    decreases |s|
  {
    var m := MapChars(s, f);
    if s != [] && drop(s[|s| - 1]) {
      assert m[..|m| - 1] == MapChars(s[..|s| - 1], f);
      TrimEndMap(s[..|s| - 1], drop, f);
    }
  }

  lemma StripMap(s: string, drop: char -> bool, f: char -> char)
    requires forall c :: drop(f(c)) == drop(c)
    ensures Strip(MapChars(s, f), drop) == MapChars(Strip(s, drop), f)
  {
    TrimStartMap(s, drop, f);
    TrimEndMap(TrimStart(s, drop), drop, f);
  }

  lemma {:induction false} FilterMap(s: string, keep: char -> bool, f: char -> char)
    requires forall c :: keep(f(c)) == keep(c)
    ensures Filter(MapChars(s, f), keep) == MapChars(Filter(s, keep), f)
    decreases |s|
  {
    if s != [] {
      var m := MapChars(s, f);
      assert m[1..] == MapChars(s[1..], f);
      FilterMap(s[1..], keep, f);
      var tail := Filter(s[1..], keep);
      assert keep(m[0]) == keep(s[0]);
      if keep(s[0]) {
        assert Filter(m, keep) == [m[0]] + MapChars(tail, f);
        MapCharsAppend([s[0]], tail, f);
      } else {
        assert Filter(m, keep) == [] + MapChars(tail, f);
      }
    }
  }

  lemma MapCharsAppend(a: string, b: string, f: char -> char)
    ensures MapChars(a + b, f) == MapChars(a, f) + MapChars(b, f)
  {
  }

  // ---------------------------------------------------------------------
  // Splitting on whitespace

  /** The longest prefix of `s` whose characters satisfy `keep`. */
  function PrefixWhile(s: string, keep: char -> bool): (r: string)
    ensures |r| <= |s| && r == s[..|r|]
    ensures forall i :: 0 <= i < |r| ==> keep(r[i])
    ensures |r| == |s| || !keep(s[|r|])
    decreases |s|
  {
    if s != [] && keep(s[0]) then [s[0]] + PrefixWhile(s[1..], keep) else []
  }

  /** A word of `s.split()`: non-empty and free of whitespace. */
  predicate IsWord(w: string) {
    w != [] && forall j :: 0 <= j < |w| ==> NotSpace(w[j])
  }

  /**
   * `s.split()` with no argument: the maximal runs of non-whitespace
   * characters, in order; leading, trailing and repeated whitespace yield
   * no empty words.
   */
  function Words(s: string): (ws: seq<string>)
    ensures forall w :: w in ws ==> IsWord(w)
    ensures ws == [] <==> forall i :: 0 <= i < |s| ==> IsSpace(s[i])
    decreases |s|
  {
    var t := TrimStart(s, IsSpace);
    if t == [] then []
    else
      var w := PrefixWhile(t, NotSpace);
      assert w != [] by { assert NotSpace(t[0]); }
      var rest := Words(t[|w|..]);
      assert !(forall i :: 0 <= i < |s| ==> IsSpace(s[i])) by {
        assert s[|s| - |t|] == t[0];
      }
      assert IsWord(w);
      [w] + rest
  }

  /** Every character of `s` is in the class `p`. */
  predicate All(s: string, p: char -> bool) {
    forall i :: 0 <= i < |s| ==> p(s[i])
  }

  lemma AllSlice(s: string, p: char -> bool, a: nat, b: nat)
    requires All(s, p) && a <= b <= |s|
    ensures All(s[a..b], p)
  {
    forall i | 0 <= i < b - a ensures p(s[a..b][i]) { assert s[a..b][i] == s[a + i]; }
  }

  /** What the filter keeps of a string whose kept characters are all in `p` is all in `p`. */
  lemma {:induction false} FilterWithin(s: string, keep: char -> bool, p: char -> bool)
    requires forall i :: 0 <= i < |s| ==> keep(s[i]) ==> p(s[i])
    ensures All(Filter(s, keep), p)
    decreases |s|
  {
    if s != [] {
      FilterWithin(s[1..], keep, p);
    }
  }

  /** Splitting drops the leading whitespace, takes the first word and splits the rest. */
  lemma WordsCons(s: string)
    requires TrimStart(s, IsSpace) != []
    ensures var t := TrimStart(s, IsSpace); var w := PrefixWhile(t, NotSpace);
      Words(s) == [w] + Words(t[|w|..])
  {
  }

  /** Every word is made of characters of `s`, so a class all of `s` belongs to covers every word. */
  lemma {:induction false} WordsFrom(s: string, p: char -> bool)
    requires All(s, p)
    ensures forall w :: w in Words(s) ==> All(w, p)
    decreases |s|
  {
    var t := TrimStart(s, IsSpace);
    if t != [] {
      var w := PrefixWhile(t, NotSpace);
      var r := t[|w|..];
      WordsCons(s);
      AllSlice(s, p, |s| - |t|, |s|);
      AllSlice(t, p, 0, |w|);
      AllSlice(t, p, |w|, |t|);
      WordsFrom(r, p);
      forall x | x in Words(s) ensures All(x, p) {
        if x != w { assert x in Words(r); }
      }
    }
  }

  /** `s.lstrip()` skips any whitespace put in front. */
  lemma {:induction false} TrimStartSpaces(sep: string, s: string)
    requires All(sep, IsSpace)
    ensures TrimStart(sep + s, IsSpace) == TrimStart(s, IsSpace)
    decreases |sep|
  {
    if sep == [] {
      assert sep + s == s;
    } else {
      assert (sep + s)[1..] == sep[1..] + s;
      AllSlice(sep, IsSpace, 1, |sep|);
      TrimStartSpaces(sep[1..], s);
    }
  }

  /** A word followed by nothing or by whitespace is the word `split()` takes first. */
  lemma {:induction false} PrefixWhileWord(w: string, r: string)
    requires All(w, NotSpace)
    requires r == [] || IsSpace(r[0])
    ensures PrefixWhile(w + r, NotSpace) == w
    decreases |w|
  {
    if w == [] {
      assert w + r == r;
    } else {
      assert (w + r)[1..] == w[1..] + r;
      AllSlice(w, NotSpace, 1, |w|);
      PrefixWhileWord(w[1..], r);
    }
  }

  /** Whitespace in front changes nothing `split()` returns. */
  lemma WordsSkipSpaces(sep: string, s: string)
    requires All(sep, IsSpace)
    ensures Words(sep + s) == Words(s)
  {
    TrimStartSpaces(sep, s);
  }

  /** A word followed by nothing or by whitespace is split off whole. */
  lemma WordThen(w: string, r: string)
    requires IsWord(w)
    requires r == [] || IsSpace(r[0])
    ensures Words(w + r) == [w] + Words(r)
  {
    var s := w + r;
    assert s[0] == w[0];
    assert TrimStart(s, IsSpace) == s;
    PrefixWhileWord(w, r);
    assert s[|w|..] == r;
    WordsCons(s);
  }

  lemma JoinFront(ws: seq<string>, sep: string)
    requires |ws| > 1
    ensures Join(ws, sep) == ws[0] + (sep + Join(ws[1..], sep))
  {
  }

  /** One more word in front of a text that splits into `tail`, behind whitespace. */
  lemma SplitCons(w: string, sep: string, rest: string, tail: seq<string>)
    requires IsWord(w)
    requires sep != [] && All(sep, IsSpace)
    requires Words(rest) == tail
    ensures Words(w + (sep + rest)) == [w] + tail
  {
    WordThen(w, sep + rest);
    WordsSkipSpaces(sep, rest);
  }

  /**
   * `split()` cuts at whitespace and nowhere else: words joined by a
   * non-empty run of whitespace split back into exactly those words.
   */
  lemma {:induction false} WordsOfJoin(ws: seq<string>, sep: string)
    requires forall k :: 0 <= k < |ws| ==> IsWord(ws[k])
    requires sep != [] && All(sep, IsSpace)
    ensures Words(Join(ws, sep)) == ws
    decreases |ws|
  {
    if |ws| == 1 {
      WordsOfOne(ws[0]);
      assert [ws[0]] == ws;
    } else if |ws| > 1 {
      var tail := ws[1..];
      forall k | 0 <= k < |tail| ensures IsWord(tail[k]) {
        assert tail[k] == ws[k + 1];
      }
      WordsOfJoin(tail, sep);
      JoinStep(ws, sep);
    }
  }

  /** A single word splits into itself. */
  lemma WordsOfOne(w: string)
    requires IsWord(w)
    ensures Words(w) == [w]
  {
    WordThen(w, []);
    assert w + [] == w;
    assert Words([]) == [];
  }

  /** The inductive step of `WordsOfJoin`: one more word in front. */
  lemma JoinStep(ws: seq<string>, sep: string)
    requires |ws| > 1 && IsWord(ws[0])
    requires sep != [] && All(sep, IsSpace)
    requires Words(Join(ws[1..], sep)) == ws[1..]
    ensures Words(Join(ws, sep)) == ws
  {
    JoinFront(ws, sep);
    SplitCons(ws[0], sep, Join(ws[1..], sep), ws[1..]);
    assert [ws[0]] + ws[1..] == ws;
  }

  /** Two words with one space between them split into those two words. */
  lemma WordsOfSpaced(a: string, b: string)
    requires IsWord(a) && IsWord(b)
    ensures Words(a + " " + b) == [a, b]
  {
    var ws := [a, b];
    assert Join(ws, " ") == a + " " + b by {
      assert ws[1..] == [b];
    }
    assert All(" ", IsSpace);
    WordsOfJoin(ws, " ");
  }

  function Concat(ws: seq<string>): string {
    if ws == [] then [] else ws[0] + Concat(ws[1..])
  }

  /** Gluing the words back together gives exactly the non-whitespace characters of the input. */
  lemma {:induction false} WordsKeepNonSpace(s: string)
    ensures Concat(Words(s)) == Filter(s, NotSpace)
    decreases |s|
  {
    var t := TrimStart(s, IsSpace);
    FilterSkipsSpaces(s);
    if t != [] {
      var w := PrefixWhile(t, NotSpace);
      var r := t[|w|..];
      FilterKeepsWord(t);
      WordsKeepNonSpace(r);
      assert Words(s) == [w] + Words(r);
      ConcatCons(w, Words(r));
    }
  }

  lemma FilterSkipsSpaces(s: string)
    ensures Filter(s, NotSpace) == Filter(TrimStart(s, IsSpace), NotSpace)
  {
    var t := TrimStart(s, IsSpace);
    var pre := s[..|s| - |t|];
    assert s == pre + t;
    FilterAppend(pre, t, NotSpace);
    assert forall i :: 0 <= i < |pre| ==> !NotSpace(pre[i]);
  }

  lemma FilterKeepsWord(t: string)
    ensures var w := PrefixWhile(t, NotSpace);
      Filter(t, NotSpace) == w + Filter(t[|w|..], NotSpace)
  {
    var w := PrefixWhile(t, NotSpace);
    assert t == w + t[|w|..];
    FilterAppend(w, t[|w|..], NotSpace);
  }

  lemma ConcatCons(w: string, ws: seq<string>)
    ensures Concat([w] + ws) == w + Concat(ws)
  {
    assert ([w] + ws)[1..] == ws;
  }

  // ---------------------------------------------------------------------
  // Substring search

  /** `pat` occurs in `s` starting at index `j`. */
  predicate OccursAt(s: string, j: int, pat: string) {
    0 <= j && j + |pat| <= |s| && s[j..j + |pat|] == pat
  }

  /** An occurrence inside a prefix is an occurrence in the whole. */
  lemma OccursInPrefix(s: string, i: nat, j: int, pat: string)
    requires i <= |s| && OccursAt(s[..i], j, pat)
    ensures OccursAt(s, j, pat)
  {
    assert s[j..j + |pat|] == s[..i][j..j + |pat|];
  }

  /** `s.find(pat)`: the first index at which `pat` occurs, if any. */
  function Find(s: string, pat: string): (r: Option<nat>)
    ensures r.Some? ==> OccursAt(s, r.value, pat) && forall j :: 0 <= j < r.value ==> !OccursAt(s, j, pat)
    ensures r.None? ==> forall j :: !OccursAt(s, j, pat)
    decreases |s|
  {
    if |s| < |pat| then None
    else if s[..|pat|] == pat then Some(0)
    else
      match Find(s[1..], pat)
      case None =>
        assert forall j :: OccursAt(s, j, pat) ==> j == 0 || OccursAt(s[1..], j - 1, pat);
        None
      case Some(k) =>
        assert forall j :: 0 < j <= k ==> OccursAt(s, j, pat) ==> OccursAt(s[1..], j - 1, pat);
        Some(k + 1)
  }

  /** An occurrence with none before it is the one `find` reports. */
  lemma FindFirst(s: string, pat: string, i: nat)
    requires OccursAt(s, i, pat)
    requires forall j :: 0 <= j < i ==> !OccursAt(s, j, pat)
    ensures Find(s, pat) == Some(i)
  {
    var r := Find(s, pat);
    assert r.Some?;
    assert !(r.value < i);
    assert !(r.value > i);
  }

  /** Python's `pat in s` for strings. */
  predicate Contains(s: string, pat: string) {
    Find(s, pat).Some?
  }

  /** A one-character pattern occurs exactly when its character does. */
  lemma ContainsChar(s: string, c: char)
    ensures Contains(s, [c]) <==> c in s
  {
    if c in s {
      var k :| 0 <= k < |s| && s[k] == c;
      assert s[k..k + 1] == [c];
      assert OccursAt(s, k, [c]);
    }
    if Contains(s, [c]) {
      var k := Find(s, [c]).value;
      assert s[k..k + 1] == [c];
      assert s[k] == c;
    }
  }

  // ---------------------------------------------------------------------
  // Joining

  /** `sep.join(xs)` */
  function Join(xs: seq<string>, sep: string): string {
    if xs == [] then []
    else if |xs| == 1 then xs[0]
    else xs[0] + sep + Join(xs[1..], sep)
  }

  /** `"\n".join(xs)` */
  function JoinLines(xs: seq<string>): string {
    Join(xs, "\n")
  }

  /** Cut `s` at every newline: the inverse of `JoinLines`. */
  function SplitLines(s: string): (r: seq<string>)
    ensures |r| > 0
    decreases |s|
  {
    match Find(s, "\n")
    case None => [s]
    case Some(i) => [s[..i]] + SplitLines(s[i + 1..])
  }

  /** A client that cuts a joined listing at its newlines gets back every line it was built from. */
  lemma {:induction false} SplitJoinLines(xs: seq<string>)
    requires xs != []
    requires forall k :: 0 <= k < |xs| ==> '\n' !in xs[k]
    ensures SplitLines(JoinLines(xs)) == xs
    decreases |xs|
  {
    if |xs| == 1 {
      ContainsChar(xs[0], '\n');
    } else {
      var s := JoinLines(xs);
      var a := xs[0];
      assert s == a + "\n" + JoinLines(xs[1..]);
      ContainsChar(a, '\n');
      assert OccursAt(s, |a|, "\n");
      forall j | 0 <= j < |a| ensures !OccursAt(s, j, "\n") {
        assert s[j] == a[j];
      }
      assert Find(s, "\n") == Some(|a|);
      assert s[..|a|] == a;
      assert s[|a| + 1..] == JoinLines(xs[1..]);
      SplitJoinLines(xs[1..]);
    }
  }
}
