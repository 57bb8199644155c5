/**
 * The handful of Python `str` operations the daemon relies on, over Dafny
 * strings: `in` (substring test), `split(sep)[1]`, `split()[0]`, `strip()`,
 * `lower()` and `replace(" ", "")`.
 */
module Text {

  datatype Option<T> = None | Some(value: T)

  /** Python's `str.isspace()`, by code point (the characters `strip()` and `split()` cut at). */
  predicate IsSpace(c: char) {
    var n := c as int;
    (9 <= n <= 13) || (28 <= n <= 32) || n == 0x85 || n == 0xA0 || n == 0x1680
    || (0x2000 <= n <= 0x200A) || n == 0x2028 || n == 0x2029 || n == 0x202F
    || n == 0x205F || n == 0x3000
  }

  predicate IsUpper(c: char) {
    'A' <= c <= 'Z'
  }

  /** `lower()` on one character, for the ASCII letters. */
  function LowerChar(c: char): (r: char)
    ensures !IsUpper(r)
    ensures IsUpper(c) ==> r as int == c as int + 32
    ensures !IsUpper(c) ==> r == c
  {
    if IsUpper(c) then (c as int + 32) as char else c
  }

  /** `s.lower()` over ASCII: every letter A-Z is replaced by its lower-case form. */
  function Lower(s: string): (r: string)
    ensures |r| == |s|
    ensures forall i :: 0 <= i < |s| ==> r[i] == LowerChar(s[i])
  {
    if s == [] then [] else [LowerChar(s[0])] + Lower(s[1..])
  }

  /** Text without upper-case letters is its own lower-case form. */
  lemma LowerNoop(s: string)
    requires forall i :: 0 <= i < |s| ==> !IsUpper(s[i])
    ensures Lower(s) == s
  {
  }

  /** `s.replace(" ", "")`: drops every space character, and nothing else. */
  function RemoveSpaces(s: string): (r: string)
    ensures ' ' !in r
    ensures |r| <= |s|
  {
    if s == [] then []
    else if s[0] == ' ' then RemoveSpaces(s[1..])
    else [s[0]] + RemoveSpaces(s[1..])
  }

  /** `replace(" ", "")` keeps every other character, as often as it occurs. */
  lemma {:induction false} RemoveSpacesKeeps(s: string)
    ensures multiset(RemoveSpaces(s)) == multiset(s)[' ' := 0]
  {
    if s != [] {
      assert s == [s[0]] + s[1..];
      RemoveSpacesKeeps(s[1..]);
    }
  }

  // ---------------------------------------------------------------------------
  // Substrings

  /** `t` occurs in `s` starting at position `k`. */
  predicate OccursAt(s: string, t: string, k: nat) {
    k + |t| <= |s| && s[k..k + |t|] == t
  }

  /** Position of the first occurrence of `t` in `s` at or after `i`. */
  function IndexFrom(s: string, t: string, i: nat): (r: Option<nat>)
    ensures r.Some? ==> i <= r.value && r.value + |t| <= |s|
    decreases |s| - i
  {
    if |s| < i + |t| then None
    else if OccursAt(s, t, i) then Some(i)
    else IndexFrom(s, t, i + 1)
  }

  /** Position of the first occurrence of `t` in `s` (Python's `s.find(t)`, `None` for -1). */
  function IndexOf(s: string, t: string): (r: Option<nat>)
    ensures r.Some? ==> r.value + |t| <= |s|
  {
    IndexFrom(s, t, 0)
  }

  /** The search from `i` finds the first occurrence at or after `i`, and `None` means there is none. */
  lemma {:induction false} IndexFromFinds(s: string, t: string, i: nat)
    ensures IndexFrom(s, t, i).Some? ==> OccursAt(s, t, IndexFrom(s, t, i).value)
    ensures IndexFrom(s, t, i).Some? ==> forall j: nat :: i <= j < IndexFrom(s, t, i).value ==> !OccursAt(s, t, j)
    ensures IndexFrom(s, t, i).None? ==> forall j: nat :: i <= j ==> !OccursAt(s, t, j)
    decreases |s| - i
  {
    if |s| < i + |t| {
    } else if OccursAt(s, t, i) {
    } else {
      IndexFromFinds(s, t, i + 1);
    }
  }

  /** `IndexOf` finds the first occurrence, and `None` means there is none. */
  lemma IndexOfFinds(s: string, t: string)
    ensures IndexOf(s, t).Some? ==> OccursAt(s, t, IndexOf(s, t).value)
    ensures IndexOf(s, t).Some? ==> forall j: nat :: j < IndexOf(s, t).value ==> !OccursAt(s, t, j)
    ensures IndexOf(s, t).None? ==> forall j: nat :: !OccursAt(s, t, j)
  {
    IndexFromFinds(s, t, 0);
  }

  /** Python's `t in s`. */
  predicate Contains(s: string, t: string) {
    IndexOf(s, t).Some?
  }

  /** An occurrence with none before it is the one `IndexOf` finds. */
  lemma IndexOfFirst(s: string, t: string, k: nat)
    requires OccursAt(s, t, k)
    requires forall j: nat :: j < k ==> !OccursAt(s, t, j)
    ensures IndexOf(s, t) == Some(k)
  {
    IndexOfFinds(s, t);
  }

  /** The first position of character `c` in `s` is where `IndexOf` finds `[c]`. */
  lemma CharIndex(s: string, c: char, k: nat)
    requires k < |s| && s[k] == c
    requires forall j :: 0 <= j < k ==> s[j] != c
    ensures IndexOf(s, [c]) == Some(k)
  {
    assert s[k..k + 1] == [c];
    forall j: nat | j < k ensures !OccursAt(s, [c], j) {
      assert s[j..j + 1][0] == s[j];
    }
    IndexOfFirst(s, [c], k);
  }

  /** A character that is not in `s` is not found. */
  lemma CharAbsent(s: string, c: char)
    requires c !in s
    ensures IndexOf(s, [c]).None?
  {
    forall m: nat ensures !OccursAt(s, [c], m) {
      if m < |s| {
        assert s[m..m + 1][0] == s[m];
      }
    }
    IndexOfFinds(s, [c]);
  }

  /** `t in s` holds exactly when `t` occurs somewhere in `s`. */
  lemma ContainsOccurs(s: string, t: string)
    ensures Contains(s, t) <==> exists k: nat :: OccursAt(s, t, k)
  {
    IndexOfFinds(s, t);
  }

  lemma OccursInPrefix(s: string, t: string, m: nat, j: nat)
    requires m <= |s| && OccursAt(s[..m], t, j)
    ensures OccursAt(s, t, j) && j + |t| <= m
  {
    assert s[..m][j..j + |t|] == s[j..j + |t|];
  }

  lemma OccursInSuffix(s: string, t: string, k: nat, j: nat)
    requires k <= |s|
    ensures OccursAt(s[k..], t, j) <==> OccursAt(s, t, k + j)
  {
    if k + j + |t| <= |s| {
      assert s[k..][j..j + |t|] == s[k + j..k + j + |t|];
    }
  }

  /**
   * Python's `s.split(sep)[1]`: the text after the first occurrence of `sep`,
   * up to the next occurrence if there is one. `None` where Python raises
   * IndexError, that is, when `sep` does not occur in `s`.
   */
  function SplitSecond(s: string, sep: string): (r: Option<string>)
    requires sep != []
    ensures r.Some? <==> Contains(s, sep)
  {
    match IndexOf(s, sep)
    case None => None
    case Some(k) => Some(FieldFrom(s[k + |sep|..], sep))
  }

  /** The text of `rest` up to its first `sep`, or all of it when it holds none. */
  function FieldFrom(rest: string, sep: string): string {
    match IndexOf(rest, sep)
    case None => rest
    case Some(m) => rest[..m]
  }

  /**
   * `f` is the field of `s` that starts at `start`: it stands there, it runs up
   * to the end of `s` or to the next `sep`, it holds no `sep` itself, and no
   * `sep` of `s` starts inside it (which fixes the field even for a separator
   * that overlaps itself).
   */
  predicate IsFieldAt(s: string, sep: string, start: nat, f: string) {
    && start + |f| <= |s|
    && s[start..start + |f|] == f
    && (start + |f| == |s| || OccursAt(s, sep, start + |f|))
    && !Contains(f, sep)
    && forall j :: start <= j < start + |f| ==> !OccursAt(s, sep, j)
  }

  /** `split(sep)[1]` is the field that starts right after the first `sep`, found at `k`. */
  lemma SplitSecondIsField(s: string, sep: string, k: nat)
    requires sep != [] && IndexOf(s, sep) == Some(k)
    ensures IsFieldAt(s, sep, k + |sep|, SplitSecond(s, sep).value)
  {
    var f := FieldFrom(s[k + |sep|..], sep);
    assert SplitSecond(s, sep) == Some(f);
    FieldFromIsField(s, sep, k + |sep|);
  }

  lemma FieldFromIsField(s: string, sep: string, start: nat)
    requires sep != [] && start <= |s|
    ensures IsFieldAt(s, sep, start, FieldFrom(s[start..], sep))
  {
    var rest := s[start..];
    IndexOfFinds(rest, sep);
    match IndexOf(rest, sep)
    case None =>
      assert s[start..start + |rest|] == rest;
      forall j | start <= j < |s| ensures !OccursAt(s, sep, j) {
        OccursInSuffix(s, sep, start, j - start);
      }
    case Some(m) =>
      var f := rest[..m];
      assert s[start..start + m] == f;
      OccursInSuffix(s, sep, start, m);
      forall j: nat | OccursAt(f, sep, j) ensures false {
        OccursInPrefix(rest, sep, m, j);
      }
      ContainsOccurs(f, sep);
      forall j | start <= j < start + m ensures !OccursAt(s, sep, j) {
        OccursInSuffix(s, sep, start, j - start);
      }
  }

  // ---------------------------------------------------------------------------
  // Whitespace

  /** Python's `s.lstrip()`. */
  function TrimStart(s: string): (r: string)
    ensures |r| <= |s|
  {
    if s != [] && IsSpace(s[0]) then TrimStart(s[1..]) else s
  }

  /** `lstrip()` cuts a run of whitespace from the front, and all of it. */
  lemma {:induction false} TrimStartSpec(s: string)
    ensures var r := TrimStart(s);
      && r == s[|s| - |r|..]
      && (r == [] || !IsSpace(r[0]))
      && forall i :: 0 <= i < |s| - |r| ==> IsSpace(s[i])
  {
    if s != [] && IsSpace(s[0]) {
      TrimStartSpec(s[1..]);
    }
  }

  /** Python's `s.rstrip()`. */
  function TrimEnd(s: string): (r: string)
    ensures |r| <= |s|
  {
    if s != [] && IsSpace(s[|s| - 1]) then TrimEnd(s[..|s| - 1]) else s
  }

  /** `rstrip()` cuts a run of whitespace from the back, and all of it. */
  lemma {:induction false} TrimEndSpec(s: string)
    ensures var r := TrimEnd(s);
      && r == s[..|r|]
      && (r == [] || !IsSpace(r[|r| - 1]))
      && forall i :: |r| <= i < |s| ==> IsSpace(s[i])
  {
    if s != [] && IsSpace(s[|s| - 1]) {
      TrimEndSpec(s[..|s| - 1]);
    }
  }

  /** `r` is `s` with the whitespace before position `k` and after `k + |r|` cut off. */
  predicate IsTrimmedAt(s: string, k: nat, r: string) {
    && k + |r| <= |s|
    && s[k..k + |r|] == r
    && (forall i :: 0 <= i < k ==> IsSpace(s[i]))
    && (forall i :: k + |r| <= i < |s| ==> IsSpace(s[i]))
  }

  /** Python's `s.strip()`: the text between the first and the last non-whitespace character. */
  function Strip(s: string): string {
    TrimEnd(TrimStart(s))
  }

  /**
   * `strip()` cuts whitespace only, from both ends, and all of it: the result
   * is empty exactly for a blank text and otherwise begins and ends with a
   * character that is not whitespace.
   */
  lemma StripTrims(s: string)
    ensures var r := Strip(s);
      && (r == [] <==> forall i :: 0 <= i < |s| ==> IsSpace(s[i]))
      && (r != [] ==> !IsSpace(r[0]) && !IsSpace(r[|r| - 1]))
      && IsTrimmedAt(s, |s| - |TrimStart(s)|, r)
  {
    var r := Strip(s);
    var k := |s| - |TrimStart(s)|;
    StripCutsWhitespace(s);
    if r != [] {
      assert s[k] == r[0];
    }
  }

  /** The stripped text stands in `s` between the leading and the trailing whitespace. */
  lemma StripCutsWhitespace(s: string)
    ensures var r := Strip(s);
      && (r != [] ==> !IsSpace(r[0]) && !IsSpace(r[|r| - 1]))
      && IsTrimmedAt(s, |s| - |TrimStart(s)|, r)
  {
    var t := TrimStart(s);
    var r := TrimEnd(t);
    var k := |s| - |t|;
    TrimStartSpec(s);
    TrimEndSpec(t);
    assert t == s[k..];
    assert r == t[..|r|];
    assert s[k..k + |r|] == r;
    assert forall i :: 0 <= i < k ==> IsSpace(s[i]);
    forall i | k + |r| <= i < |s| ensures IsSpace(s[i]) {
      assert s[i] == t[i - k];
    }
  }

  /** A text that neither begins nor ends with whitespace is left alone by `strip()`. */
  lemma StripKeeps(s: string)
    requires s == [] || (!IsSpace(s[0]) && !IsSpace(s[|s| - 1]))
    ensures Strip(s) == s
  {
    assert TrimStart(s) == s;
  }

  /** The first word of `s`: the run of non-whitespace characters at its start. */
  function TakeWord(s: string): (r: string)
    ensures |r| <= |s|
  {
    if s == [] || IsSpace(s[0]) then [] else [s[0]] + TakeWord(s[1..])
  }

  /** The word is a prefix of `s` without whitespace that ends at whitespace or at the end. */
  lemma {:induction false} TakeWordSpec(s: string)
    ensures var r := TakeWord(s);
      && r == s[..|r|]
      && (forall i :: 0 <= i < |r| ==> !IsSpace(r[i]))
      && (|r| == |s| || IsSpace(s[|r|]))
  {
    if s != [] && !IsSpace(s[0]) {
      TakeWordSpec(s[1..]);
      assert TakeWord(s) == [s[0]] + TakeWord(s[1..]);
    }
  }

  /**
   * Python's `s.split()[0]`: the first whitespace-delimited word, or `None`
   * when `s.split()` is empty (`s` is blank).
   */
  function FirstWord(s: string): Option<string> {
    var t := TrimStart(s);
    if t == [] then None else Some(TakeWord(t))
  }

  /**
   * `s.split()` is empty exactly for a blank `s`; otherwise its first element
   * is a non-empty run of non-whitespace characters that stands after the
   * leading whitespace and ends at whitespace or at the end of `s`.
   */
  lemma FirstWordSpec(s: string)
    ensures FirstWord(s).None? <==> forall i :: 0 <= i < |s| ==> IsSpace(s[i])
    ensures FirstWord(s).Some? ==>
      var w := FirstWord(s).value;
      && w != []
      && (forall i :: 0 <= i < |w| ==> !IsSpace(w[i]))
      && IsWordAt(s, |s| - |TrimStart(s)|, w)
  {
    var t := TrimStart(s);
    TrimStartSpec(s);
    TakeWordSpec(t);
  }

  /** `w` stands in `s` at `k`, preceded only by whitespace and followed by whitespace or the end. */
  predicate IsWordAt(s: string, k: nat, w: string) {
    && k + |w| <= |s|
    && s[k..k + |w|] == w
    && (forall i :: 0 <= i < k ==> IsSpace(s[i]))
    && (k + |w| == |s| || IsSpace(s[k + |w|]))
  }
}
