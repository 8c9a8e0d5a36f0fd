/**
 * The handful of Python `str` operations the daemon relies on, on `seq<char>`:
 * substring search (`in`, `find`), `split`, slicing past the end, `startswith`,
 * single-character `replace`, `lower` and `strip`.
 */
module Text {
  import opened Wrappers

  /** `sub` occurs in `s` starting at index `i`. */
  predicate OccursAt(s: string, sub: string, i: int)
  {
    0 <= i && i + |sub| <= |s| && s[i..i + |sub|] == sub
  }

  /** Index of the first occurrence of `sub` in `s` (Python's `s.find(sub)`, with `None` for -1). */
  function IndexOf(s: string, sub: string): (r: Option<nat>)
    ensures r.Some? ==> r.value + |sub| <= |s|
    decreases |s|
  {
    if |s| < |sub| then None
    else if s[..|sub|] == sub then Some(0)
    else
      match IndexOf(s[1..], sub)
      case None => None
      case Some(k) => Some(k + 1)
  }

  /** `IndexOf` finds an occurrence, and the first one; `None` means there is none. */
  lemma {:induction false} IndexOfSpec(s: string, sub: string)
    ensures IndexOf(s, sub).Some? ==> OccursAt(s, sub, IndexOf(s, sub).value)
    ensures IndexOf(s, sub).Some? ==> forall j :: 0 <= j < IndexOf(s, sub).value ==> !OccursAt(s, sub, j)
    ensures IndexOf(s, sub).None? ==> forall j :: !OccursAt(s, sub, j)
    decreases |s|
  {
    if |s| >= |sub| && s[..|sub|] != sub {
      IndexOfSpec(s[1..], sub);
      forall j | 1 <= j
        ensures OccursAt(s, sub, j) <==> OccursAt(s[1..], sub, j - 1)
      {
        if j + |sub| <= |s| {
          assert s[1..][j - 1..j - 1 + |sub|] == s[j..j + |sub|];
        }
      }
      assert !OccursAt(s, sub, 0);
    }
  }

  /** Python's `sub in s`. */
  predicate Contains(s: string, sub: string)
  {
    IndexOf(s, sub).Some?
  }

  /** An occurrence anywhere makes `sub in s` true. */
  lemma OccursContains(s: string, sub: string, j: int)
    requires OccursAt(s, sub, j)
    ensures Contains(s, sub)
  {
    IndexOfSpec(s, sub);
  }

  /** Python's `s.split(sep)` for a non-empty separator. */
  function Split(s: string, sep: string): (r: seq<string>)
    requires sep != []
    ensures |r| >= 1
    decreases |s|
  {
    match IndexOf(s, sep)
    case None => [s]
    case Some(i) => [s[..i]] + Split(s[i + |sep|..], sep)
  }

  /** Python's `s[n:]` for `n >= 0`: slicing past the end gives the empty string. */
  function Drop(s: string, n: nat): string
  {
    if n >= |s| then [] else s[n..]
  }

  /** Python's `s.startswith(p)`. */
  predicate StartsWith(s: string, p: string)
  {
    |p| <= |s| && s[..|p|] == p
  }

  /** Python's `s.replace(c, r)` where the old text is the single character `c`. */
  function ReplaceChar(s: string, c: char, r: string): string
  {
    if s == [] then [] else (if s[0] == c then r else [s[0]]) + ReplaceChar(s[1..], c, r)
  }

  /** Replacing a character works piece by piece over a concatenation. */
  lemma {:induction false} ReplaceCharAppend(a: string, b: string, c: char, r: string)
    ensures ReplaceChar(a + b, c, r) == ReplaceChar(a, c, r) + ReplaceChar(b, c, r)
  {
    if a == [] {
      assert a + b == b;
    } else {
      assert (a + b)[0] == a[0] && (a + b)[1..] == a[1..] + b;
      ReplaceCharAppend(a[1..], b, c, r);
    }
  }

  /** Replacing in a one-character string. */
  lemma ReplaceCharSingle(x: char, c: char, r: string)
    ensures ReplaceChar([x], c, r) == if x == c then r else [x]
  {
    assert [x][1..] == [];
  }

  /** Replacing a character that does not occur changes nothing. */
  lemma {:induction false} ReplaceCharAbsent(s: string, c: char, r: string)
    requires c !in s
    ensures ReplaceChar(s, c, r) == s
  {
    if s != [] {
      ReplaceCharAbsent(s[1..], c, r);
    }
  }

  /** ASCII lower-casing of one character. */
  function LowerChar(c: char): char
  {
    if 'A' <= c <= 'Z' then (c as int + 32) as char else c
  }

  /** Python's `s.lower()`, restricted to ASCII letters. */
  function Lower(s: string): string
  {
    seq(|s|, i requires 0 <= i < |s| => LowerChar(s[i]))
  }

  /** Python's `str.isspace()` for one character. */
  predicate IsSpace(c: char)
  {
    || '\t' <= c <= '\r' || '\U{1c}' <= c <= ' ' || c == '\U{85}' || c == '\U{a0}'
    || c == '\U{1680}' || '\U{2000}' <= c <= '\U{200a}' || c == '\U{2028}' || c == '\U{2029}'
    || c == '\U{202f}' || c == '\U{205f}' || c == '\U{3000}'
  }

  function TrimStart(s: string): string
  {
    if s != [] && IsSpace(s[0]) then TrimStart(s[1..]) else s
  }

  function TrimEnd(s: string): string
  {
    if s != [] && IsSpace(s[|s| - 1]) then TrimEnd(s[..|s| - 1]) else s
  }

  /** Python's `s.strip()`: drops whitespace at both ends. */
  function Strip(s: string): string
  {
    TrimEnd(TrimStart(s))
  }

  /** The first piece of `s.split(sep)` is the text before the first `sep`, or all of `s`. */
  lemma {:induction false} SplitHead(s: string, sep: string)
    requires sep != []
    ensures IndexOf(s, sep).None? ==> Split(s, sep) == [s]
    ensures IndexOf(s, sep).Some? ==> Split(s, sep)[0] == s[..IndexOf(s, sep).value]
  {
  }

  /** `s.split(sep)` has more than one piece exactly when `sep` occurs in `s`. */
  lemma {:induction false} SplitMoreThanOne(s: string, sep: string)
    requires sep != []
    ensures |Split(s, sep)| > 1 <==> Contains(s, sep)
  {
  }

  /**
   * The second piece of `s.split(sep)`: the text right after the first `sep`, running up to
   * the next `sep` or to the end, and holding no `sep` itself.
   */
  lemma SplitSecond(s: string, sep: string, i: nat)
    requires sep != [] && IndexOf(s, sep) == Some(i)
    ensures |Split(s, sep)| > 1
    ensures PieceAtOffset(s, sep, i + |sep|, Split(s, sep)[1])
  {
    var off := i + |sep|;
    var second := Split(s[off..], sep)[0];
    SplitAtFirst(s, sep, i);
    assert Split(s, sep)[1] == second;
    PieceAt(s, sep, off);
    assert PieceAtOffset(s, sep, off, second);
  }

  /** When `sep` first occurs at `i`, the pieces are the text before it, then the pieces of the rest. */
  lemma SplitAtFirst(s: string, sep: string, i: nat)
    requires sep != [] && IndexOf(s, sep) == Some(i)
    ensures Split(s, sep) == [s[..i]] + Split(s[i + |sep|..], sep)
  {
  }

  /** `p` sits at `off` in `s`, holds no `sep`, and is followed by `sep` or by the end of `s`. */
  predicate PieceAtOffset(s: string, sep: string, off: int, p: string)
  {
    && 0 <= off && off + |p| <= |s| && s[off..off + |p|] == p && !Contains(p, sep)
    && (off + |p| == |s| || OccursAt(s, sep, off + |p|))
  }

  /** The first piece of `s[off..].split(sep)` is a piece of `s` at `off`. */
  lemma PieceAt(s: string, sep: string, off: nat)
    requires sep != [] && off <= |s|
    ensures PieceAtOffset(s, sep, off, Split(s[off..], sep)[0])
  {
    var t := s[off..];
    var p := Split(t, sep)[0];
    SplitHeadOfRest(t, sep);
    assert s[off..off + |p|] == t[..|p|];
    if off + |p| < |s| {
      assert t[|p|..|p| + |sep|] == s[off + |p|..off + |p| + |sep|];
    }
  }

  /** The first piece of `t.split(sep)` is a prefix of `t` free of `sep`, ended by `sep` or the end. */
  lemma SplitHeadOfRest(t: string, sep: string)
    requires sep != []
    ensures var p := Split(t, sep)[0];
      |p| <= |t| && t[..|p|] == p && !Contains(p, sep) && (|p| == |t| || OccursAt(t, sep, |p|))
  {
    match IndexOf(t, sep)
    case None =>
    case Some(j) =>
      IndexOfSpec(t, sep);
      NoEarlierOccurrence(t, sep, j);
  }

  /** A prefix of `t` that stops before the first occurrence of `sep` holds no `sep`. */
  lemma NoEarlierOccurrence(t: string, sep: string, j: nat)
    requires sep != [] && IndexOf(t, sep) == Some(j)
    ensures !Contains(t[..j], sep)
  {
    var p := t[..j];
    IndexOfSpec(t, sep);
    if Contains(p, sep) {
      IndexOfSpec(p, sep);
      var k := IndexOf(p, sep).value;
      assert p[k..k + |sep|] == t[k..k + |sep|];
      assert OccursAt(t, sep, k) && k < j;
    }
  }
}
