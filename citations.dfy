/**
  Citation stripping: `remove_bracket_tags` in rag_api.py, which performs
  `re.sub(r'\[\[.*?\]\]\s*(\r?\n)?', '', text)`.

  The regular expression is modelled as an explicit left-to-right scanner, the
  way Python's `re.sub` walks the text: at each position it tries to match one
  marker; on success the whole match is dropped and scanning resumes after it,
  otherwise the character is kept and scanning moves on by one.

  One match, as the regular expression defines it:
  - `\[\[`   the two opening brackets;
  - `.*?`    a lazy run of characters other than `\n` (`.` without DOTALL),
             so the match ends at the FIRST `]]` on the same line;
  - `\]\]`   the two closing brackets;
  - `\s*`    greedy: every whitespace character after the marker, newlines
             included;
  - `(\r?\n)?` then always matches empty, because `\s*` already took any
             line break.
  Python's `\s` on `str` patterns also accepts other Unicode white space; here
  it is the fixed set space, `\t`, `\n`, `\r`, `\f`, `\v`.
*/
module Citations {
  import opened Wrappers

  /** Python's `\s`, restricted to the six ASCII white-space characters. */
  predicate IsSpace(c: char) {
    c == ' ' || c == '\t' || c == '\n' || c == '\r' || c == '\U{C}' || c == '\U{B}'
  }

  /** `[[` starts at index `i`. */
  predicate OpensAt(s: seq<char>, i: nat) {
    i + 1 < |s| && s[i] == '[' && s[i + 1] == '['
  }

  /** `]]` starts at index `j`. */
  predicate ClosesAt(s: seq<char>, j: nat) {
    j + 1 < |s| && s[j] == ']' && s[j + 1] == ']'
  }

  /** No line feed in `s[a..b]` (what `.` may range over). */
  predicate NoNewline(s: seq<char>, a: nat, b: nat)
    requires a <= b <= |s|
  {
    forall k :: a <= k < b ==> s[k] != '\n'
  }

  /** Every character of `s[a..b]` is white space. */
  predicate AllSpace(s: seq<char>, a: nat, b: nat)
    requires a <= b <= |s|
  {
    forall k :: a <= k < b ==> IsSpace(s[k])
  }

  /**
    The match of the regular expression that starts at `i` closes its
    brackets at `j` and ends (exclusive) at `e`: `[[` at `i`, the first `]]`
    after it at `j` with no line feed in between, then a maximal run of
    white space up to `e`.
  */
  predicate IsMarker(s: seq<char>, i: nat, j: nat, e: nat) {
    && OpensAt(s, i)
    && i + 2 <= j && ClosesAt(s, j)
    && NoNewline(s, i + 2, j)
    && (forall k :: i + 2 <= k < j ==> !ClosesAt(s, k))
    && j + 2 <= e <= |s|
    && AllSpace(s, j + 2, e)
    && (e < |s| ==> !IsSpace(s[e]))
  }

  /**
    The lazy `.*?\]\]` part: from `j`, the first `]]` reached without
    crossing a line feed, if there is one.
  */
  function FindClose(s: seq<char>, j: nat): (r: Option<nat>)
    requires j <= |s|
    ensures r.Some? ==> j <= r.value && ClosesAt(s, r.value)
    decreases |s| - j
  {
    if j + 1 >= |s| then None
    else if s[j] == ']' && s[j + 1] == ']' then Some(j)
    else if s[j] == '\n' then None
    else FindClose(s, j + 1)
  }

  /**
    `FindClose` is the lazy match: what it finds is the first `]]` from `j`
    and no line feed lies before it; when it finds nothing, every later `]]`
    has a line feed before it.
  */
  lemma {:induction false} FindCloseSpec(s: seq<char>, j: nat)
    requires j <= |s|
    ensures FindClose(s, j).Some? ==>
      && NoNewline(s, j, FindClose(s, j).value)
      && (forall k :: j <= k < FindClose(s, j).value ==> !ClosesAt(s, k))
    ensures FindClose(s, j).None? ==>
      forall k :: j <= k && ClosesAt(s, k) ==> !NoNewline(s, j, k)
    decreases |s| - j
  {
    if j + 1 < |s| && !(s[j] == ']' && s[j + 1] == ']') && s[j] != '\n' {
      FindCloseSpec(s, j + 1);
    }
  }

  /** The greedy `\s*` part: the end of the white-space run starting at `k`. */
  function SkipSpace(s: seq<char>, k: nat): (e: nat)
    requires k <= |s|
    ensures k <= e <= |s|
    ensures e < |s| ==> !IsSpace(s[e])
    decreases |s| - k
  {
    if k < |s| && IsSpace(s[k]) then SkipSpace(s, k + 1) else k
  }

  /** `SkipSpace` is greedy: everything it skips is white space. */
  lemma {:induction false} SkipSpaceSpec(s: seq<char>, k: nat)
    requires k <= |s|
    ensures AllSpace(s, k, SkipSpace(s, k))
    decreases |s| - k
  {
    if k < |s| && IsSpace(s[k]) {
      SkipSpaceSpec(s, k + 1);
    }
  }

  /**
    The end of the match that starts at `i`, or `None` when the regular
    expression does not match there.
  */
  function MarkerEnd(s: seq<char>, i: nat): (r: Option<nat>)
    requires i <= |s|
    ensures r.Some? ==> i + 4 <= r.value <= |s|
  {
    if OpensAt(s, i) then
      match FindClose(s, i + 2)
      case Some(j) => Some(SkipSpace(s, j + 2))
      case None => None
    else None
  }

  /**
    `MarkerEnd` finds exactly the matches of the regular expression: a match
    ends where `IsMarker` says, and there is none when `[[` is missing or no
    `]]` follows on the same line.
  */
  lemma MarkerEndIsMarker(s: seq<char>, i: nat)
    requires i <= |s|
    ensures MarkerEnd(s, i).Some? ==> exists j :: IsMarker(s, i, j, MarkerEnd(s, i).value)
    ensures MarkerEnd(s, i).None? ==>
      !OpensAt(s, i) || forall j :: i + 2 <= j && ClosesAt(s, j) ==> !NoNewline(s, i + 2, j)
  {
    if OpensAt(s, i) {
      FindCloseSpec(s, i + 2);
    }
    if OpensAt(s, i) && FindClose(s, i + 2).Some? {
      var j := FindClose(s, i + 2).value;
      SkipSpaceSpec(s, j + 2);
      assert IsMarker(s, i, j, SkipSpace(s, j + 2));
    }
  }

  /** `re.sub` from index `i` on: drop every match, keep everything else. */
  function Scan(s: seq<char>, i: nat): (r: seq<char>)
    requires i <= |s|
    ensures |r| <= |s| - i
    decreases |s| - i
  {
    if i == |s| then []
    else
      match MarkerEnd(s, i)
      case Some(e) => Scan(s, e)
      case None => [s[i]] + Scan(s, i + 1)
  }

  /** rag_api.py `remove_bracket_tags`. */
  function RemoveBracketTags(text: seq<char>): (r: seq<char>)
    ensures |r| <= |text|
  {
    Scan(text, 0)
  }

  /**
    The text holds a citation marker: `[[` and, later on the same line, `]]`.
    Stated without reference to the scanner.
  */
  ghost predicate HasMarker(s: seq<char>) {
    exists i: nat, j: nat :: OpensAt(s, i) && i + 2 <= j && ClosesAt(s, j) && NoNewline(s, i + 2, j)
  }

  /** Where the regular expression fails to match, the character is kept. */
  lemma ScanKeeps(s: seq<char>, i: nat)
    requires i < |s| && MarkerEnd(s, i).None?
    ensures Scan(s, i) == [s[i]] + Scan(s, i + 1)
  {
  }

  /** A match is dropped as a whole and scanning resumes after it. */
  lemma ScanDrops(s: seq<char>, i: nat, e: nat)
    requires i < |s| && MarkerEnd(s, i) == Some(e)
    ensures Scan(s, i) == Scan(s, e)
  {
  }

  lemma AppendAssoc(a: seq<char>, b: seq<char>, c: seq<char>)
    ensures a + (b + c) == (a + b) + c
  {
  }

  /** Where the regular expression fails to match, scanning copies verbatim. */
  lemma {:induction false} ScanVerbatim(s: seq<char>, i: nat, k: nat)
    requires i <= k <= |s|
    requires forall p :: i <= p < k ==> MarkerEnd(s, p).None?
    ensures Scan(s, i) == s[i..k] + Scan(s, k)
    decreases k - i
  {
    if i < k {
      var rest := Scan(s, k);
      ScanKeeps(s, i);
      ScanVerbatim(s, i + 1, k);
      AppendAssoc([s[i]], s[i + 1..k], rest);
      assert [s[i]] + s[i + 1..k] == s[i..k];
    }
  }

  /**
    The text before the first marker at or after `i` is kept verbatim, the
    marker and the white space after it are dropped, and scanning resumes
    right after them.
  */
  lemma FirstMarkerRemoved(s: seq<char>, i: nat, k: nat, e: nat)
    requires i <= k < |s|
    requires forall p :: i <= p < k ==> MarkerEnd(s, p).None?
    requires MarkerEnd(s, k) == Some(e)
    ensures Scan(s, i) == s[i..k] + Scan(s, e)
  {
    ScanVerbatim(s, i, k);
    ScanDrops(s, k, e);
  }

  /** A `[[` with a `]]` later on its line makes the regular expression match. */
  lemma MarkerMatches(s: seq<char>, i: nat, j: nat)
    requires OpensAt(s, i) && i + 2 <= j && ClosesAt(s, j) && NoNewline(s, i + 2, j)
    ensures MarkerEnd(s, i).Some?
  {
    FindCloseSpec(s, i + 2);
  }

  /** If some match starts at or after `i`, scanning from `i` drops something. */
  lemma {:induction false} ScanShrinks(s: seq<char>, i: nat, p: nat)
    requires i <= p < |s|
    requires MarkerEnd(s, p).Some?
    ensures |Scan(s, i)| < |s| - i
    decreases p - i
  {
    if MarkerEnd(s, i).None? {
      ScanShrinks(s, i + 1, p);
    }
  }

  /**
    `remove_bracket_tags` returns its input unchanged exactly when the input
    holds no `[[` followed on the same line by `]]`.
  */
  lemma UnchangedIffNoMarker(text: seq<char>)
    ensures RemoveBracketTags(text) == text <==> !HasMarker(text)
  {
    if HasMarker(text) {
      var i: nat, j: nat :| OpensAt(text, i) && i + 2 <= j && ClosesAt(text, j) && NoNewline(text, i + 2, j);
      MarkerMatches(text, i, j);
      ScanShrinks(text, 0, i);
    } else {
      forall p | 0 <= p < |text| ensures MarkerEnd(text, p).None? {
        MarkerEndIsMarker(text, p);
      }
      ScanVerbatim(text, 0, |text|);
      assert text[0..|text|] == text;
    }
  }

  /** Matching looks only forward: it is the same on a suffix of the text. */
  lemma {:induction false} FindCloseSuffix(s: seq<char>, k: nat, j: nat)
    requires k <= j <= |s|
    ensures FindClose(s[k..], j - k) == if FindClose(s, j).Some? then Some(FindClose(s, j).value - k) else None
    decreases |s| - j
  {
    if j + 1 < |s| && !(s[j] == ']' && s[j + 1] == ']') && s[j] != '\n' {
      FindCloseSuffix(s, k, j + 1);
    }
  }

  lemma {:induction false} SkipSpaceSuffix(s: seq<char>, k: nat, m: nat)
    requires k <= m <= |s|
    ensures SkipSpace(s[k..], m - k) == SkipSpace(s, m) - k
    decreases |s| - m
  {
    if m < |s| && IsSpace(s[m]) {
      SkipSpaceSuffix(s, k, m + 1);
    }
  }

  lemma MarkerEndSuffix(s: seq<char>, k: nat, i: nat)
    requires k <= i <= |s|
    ensures MarkerEnd(s[k..], i - k) == if MarkerEnd(s, i).Some? then Some(MarkerEnd(s, i).value - k) else None
  {
    if OpensAt(s, i) {
      FindCloseSuffix(s, k, i + 2);
      if FindClose(s, i + 2).Some? {
        SkipSpaceSuffix(s, k, FindClose(s, i + 2).value + 2);
      }
    }
  }

  /** Scanning from index `k` is `remove_bracket_tags` of the rest of the text. */
  lemma {:induction false} ScanSuffix(s: seq<char>, k: nat, i: nat)
    requires k <= i <= |s|
    ensures Scan(s, i) == Scan(s[k..], i - k)
    decreases |s| - i
  {
    var u := s[k..];
    if i == |s| {
      assert Scan(u, i - k) == [];
    } else if MarkerEnd(s, i).Some? {
      var e := MarkerEnd(s, i).value;
      ScanSuffix(s, k, e);
      ScanSuffixDrop(s, k, i, e);
    } else {
      ScanSuffix(s, k, i + 1);
      ScanSuffixKeep(s, k, i);
    }
  }

  lemma ScanSuffixDrop(s: seq<char>, k: nat, i: nat, e: nat)
    requires k <= i < |s| && MarkerEnd(s, i) == Some(e)
    requires Scan(s, e) == Scan(s[k..], e - k)
    ensures Scan(s, i) == Scan(s[k..], i - k)
  {
    var u := s[k..];
    calc {
      Scan(s, i);
      { ScanDrops(s, i, e); }
      Scan(s, e);
      Scan(u, e - k);
      { MarkerEndSuffix(s, k, i); ScanDrops(u, i - k, e - k); }
      Scan(u, i - k);
    }
  }

  lemma ScanSuffixKeep(s: seq<char>, k: nat, i: nat)
    requires k <= i < |s| && MarkerEnd(s, i).None?
    requires Scan(s, i + 1) == Scan(s[k..], i + 1 - k)
    ensures Scan(s, i) == Scan(s[k..], i - k)
  {
    MarkerEndSuffix(s, k, i);
    ScanKeeps(s, i);
    ScanKeeps(s[k..], i - k);
    assert s[k..][i - k] == s[i];
  }

  /**
    A `[[` at `i` whose id contains neither `]` nor a line feed up to the
    `]]` at `c`, followed by white space up to `e`, is one match ending at `e`.
  */
  lemma MarkerEndAt(s: seq<char>, i: nat, c: nat, e: nat)
    requires OpensAt(s, i) && i + 2 <= c && ClosesAt(s, c)
    requires forall k :: i + 2 <= k < c ==> s[k] != ']' && s[k] != '\n'
    requires c + 2 <= e <= |s| && AllSpace(s, c + 2, e) && (e < |s| ==> !IsSpace(s[e]))
    ensures MarkerEnd(s, i) == Some(e)
  {
    FindCloseSpec(s, i + 2);
    assert NoNewline(s, i + 2, c);
    assert FindClose(s, i + 2) == Some(c);
    SkipSpaceSpec(s, c + 2);
  }

  /**
    A marker `[[x]]` whose id has neither `]` nor a line feed, preceded by
    text without `[` and followed by white space `w`, is dropped together
    with all of `w`; the text before it is kept as it is.
  */
  lemma MarkerDropped(p: seq<char>, x: seq<char>, w: seq<char>, t: seq<char>)
    requires forall k :: 0 <= k < |p| ==> p[k] != '['
    requires forall k :: 0 <= k < |x| ==> x[k] != ']' && x[k] != '\n'
    requires forall k :: 0 <= k < |w| ==> IsSpace(w[k])
    requires t == [] || !IsSpace(t[0])
    ensures RemoveBracketTags(p + "[[" + x + "]]" + w + t) == p + RemoveBracketTags(t)
  {
    var s := p + "[[" + x + "]]" + w + t;
    var i, c := |p|, |p| + 2 + |x|;
    var e := c + 2 + |w|;
    assert MarkerEnd(s, i) == Some(e) by {
      assert s[i..i + 2] == "[[" && s[i + 2..c] == x && s[c..c + 2] == "]]" && s[c + 2..e] == w && s[e..] == t;
      MarkerEndAt(s, i, c, e);
    }
    assert forall q :: 0 <= q < i ==> MarkerEnd(s, q).None? by {
      assert s[..i] == p;
    }
    FirstMarkerRemoved(s, 0, i, e);
    ScanSuffix(s, e, e);
    assert s[e..] == t && s[0..i] == p;
  }
}
