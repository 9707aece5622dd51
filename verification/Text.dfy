/** Rune-level text operations the message splitter is built from.
    A message is a sequence of runes; Dafny's `char` is a Unicode scalar value. */
module Text {
  import opened Common

  const FENCE: string := "```"
  const CLOSING: string := "\n```"

  /** The four runes the splitter skips between chunks and trims off a closed chunk. */
  predicate IsBlank(c: char) {
    c == ' ' || c == '\t' || c == '\n' || c == '\r'
  }

  /** Unicode white space, as `strings.TrimSpace` sees it. */
  predicate IsSpace(c: char) {
    || IsBlank(c)
    || c == '\U{000B}' || c == '\U{000C}' || c == '\U{0085}' || c == '\U{00A0}' || c == '\U{1680}'
    || '\U{2000}' <= c <= '\U{200A}'
    || c == '\U{2028}' || c == '\U{2029}' || c == '\U{202F}' || c == '\U{205F}' || c == '\U{3000}'
  }

  predicate IsNewline(c: char) { c == '\n' }

  predicate IsGap(c: char) { c == ' ' || c == '\t' }

  /** Three backticks start at index `i`. */
  predicate IsFence(s: string, i: int) {
    0 <= i && i + 3 <= |s| && s[i] == '`' && s[i + 1] == '`' && s[i + 2] == '`'
  }

  function TrimEnd(s: string, drop: char -> bool): (r: string)
    ensures r <= s
    ensures r != "" ==> !drop(r[|r| - 1])
    ensures forall i :: |r| <= i < |s| ==> drop(s[i])
  {
    if s != "" && drop(s[|s| - 1]) then TrimEnd(s[..|s| - 1], drop) else s
  }

  function SkipFront(s: string, drop: char -> bool): (r: string)
    ensures |r| <= |s| && r == s[|s| - |r|..]
    ensures r != "" ==> !drop(r[0])
    ensures forall i :: 0 <= i < |s| - |r| ==> drop(s[i])
  {
    if s != "" && drop(s[0]) then SkipFront(s[1..], drop) else s
  }

  /** Skipping stops at the first rune that stays. */
  lemma {:induction false} SkipsTo(s: string, d: nat, drop: char -> bool)
    requires d <= |s| && (forall i :: 0 <= i < d ==> drop(s[i])) && (d < |s| ==> !drop(s[d]))
    ensures SkipFront(s, drop) == s[d..]
  {
    hide SkipFront;
    var r := SkipFront(s, drop);
    var at := |s| - |r|;
    assert at <= d;
    assert at >= d;
  }

  function TrimSpace(s: string): (r: string)
    ensures s != "" && !IsSpace(s[0]) ==> r <= s && r != "" && !IsSpace(r[|r| - 1]) && r == TrimEnd(s, IsSpace)
  {
    TrimEnd(SkipFront(s, IsSpace), IsSpace)
  }

  /** Everything but the white space, in order: what must survive a split. */
  function Ink(s: string): string {
    if s == "" then "" else (if IsSpace(s[0]) then "" else [s[0]]) + Ink(s[1..])
  }

  lemma {:induction false} InkConcat(a: string, b: string)
    ensures Ink(a + b) == Ink(a) + Ink(b)
  {
    if a == "" {
      assert a + b == b;
    } else {
      assert (a + b)[1..] == a[1..] + b;
      InkConcat(a[1..], b);
    }
  }

  lemma {:induction false} InkOfSpaces(s: string)
    requires forall i :: 0 <= i < |s| ==> IsSpace(s[i])
    ensures Ink(s) == ""
  {
    if s != "" {
      InkOfSpaces(s[1..]);
    }
  }

  /** Trimming or skipping white space loses no ink. */
  lemma {:induction false} InkOfTrimEnd(s: string, drop: char -> bool)
    requires forall c :: drop(c) ==> IsSpace(c)
    ensures Ink(TrimEnd(s, drop)) == Ink(s)
  {
    var r := TrimEnd(s, drop);
    assert s == r + s[|r|..];
    InkConcat(r, s[|r|..]);
    InkOfSpaces(s[|r|..]);
  }

  lemma {:induction false} InkOfSkipFront(s: string, drop: char -> bool)
    requires forall c :: drop(c) ==> IsSpace(c)
    ensures Ink(SkipFront(s, drop)) == Ink(s)
  {
    var r := SkipFront(s, drop);
    var w := s[..|s| - |r|];
    assert s == w + r;
    InkConcat(w, r);
    InkOfSpaces(w);
  }

  /** The number of fences a left-to-right reader sees; each match consumes its three backticks. */
  function Fences(s: string): nat {
    if |s| < 3 then 0
    else if IsFence(s, 0) then 1 + Fences(s[3..])
    else Fences(s[1..])
  }

  /** No fence lies across the boundary before index `k`. */
  predicate CleanCut(s: string, k: int) {
    forall i :: k - 3 < i < k ==> !IsFence(s, i)
  }

  lemma {:induction false} FencesAdd(s: string, k: nat)
    requires k <= |s| && CleanCut(s, k)
    ensures Fences(s) == Fences(s[..k]) + Fences(s[k..])
    decreases |s|
  {
    if k == 0 {
      assert s[0..] == s;
    } else if |s| < 3 {
    } else if IsFence(s, 0) {
      assert k >= 3;
      forall i | k - 3 - 3 < i < k - 3 ensures !IsFence(s[3..], i) {
        assert IsFence(s[3..], i) ==> IsFence(s, i + 3);
      }
      FencesAdd(s[3..], k - 3);
      assert s[..k][3..] == s[3..][..k - 3];
      assert s[3..][k - 3..] == s[k..];
    } else {
      forall i | k - 1 - 3 < i < k - 1 ensures !IsFence(s[1..], i) {
        assert IsFence(s[1..], i) ==> IsFence(s, i + 1);
      }
      FencesAdd(s[1..], k - 1);
      assert s[..k][1..] == s[1..][..k - 1];
      assert s[1..][k - 1..] == s[k..];
      if k >= 3 { assert !IsFence(s[..k], 0); }
    }
  }

  lemma {:induction false} NoFences(s: string)
    requires forall i :: !IsFence(s, i)
    ensures Fences(s) == 0
    decreases |s|
  {
    if |s| >= 3 {
      forall i ensures !IsFence(s[1..], i) {
        assert IsFence(s[1..], i) ==> IsFence(s, i + 1);
      }
      NoFences(s[1..]);
    }
  }

  lemma {:induction false} NoFencesInSpace(s: string)
    requires forall i :: 0 <= i < |s| ==> IsSpace(s[i])
    ensures Fences(s) == 0
  {
    forall i ensures !IsFence(s, i) {
      assert 0 <= i < |s| ==> s[i] != '`';
    }
    NoFences(s);
  }
}
