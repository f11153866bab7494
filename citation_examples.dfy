/** Consequences of the general lemmas for the shapes of text a reply takes. */
module CitationExamples {
  import opened Citations

  /** Text with no `[` at all comes back unchanged. */
  lemma NoBracketKept(t: seq<char>)
    requires forall k :: 0 <= k < |t| ==> t[k] != '['
    ensures RemoveBracketTags(t) == t
  {
    UnchangedIffNoMarker(t);
  }

  /**
    Two cited points, each marker on a line of its own: both markers and both
    line breaks go, so the two points run together (for instance
    "[[a]]\ntext[[b]]\nmore" becomes "textmore").
  */
  lemma TwoMarkersExample(x: seq<char>, t: seq<char>, y: seq<char>, u: seq<char>)
    requires forall k :: 0 <= k < |x| ==> x[k] != ']' && x[k] != '\n'
    requires forall k :: 0 <= k < |y| ==> y[k] != ']' && y[k] != '\n'
    requires forall k :: 0 <= k < |t| ==> t[k] != '['
    requires forall k :: 0 <= k < |u| ==> u[k] != '['
    requires t == [] || !IsSpace(t[0])
    requires u == [] || !IsSpace(u[0])
    ensures RemoveBracketTags("[[" + x + "]]" + "\n" + (t + "[[" + y + "]]" + "\n" + u)) == t + u
  {
    var rest := t + "[[" + y + "]]" + "\n" + u;
    NoBracketKept(u);
    MarkerDropped(t, y, "\n", u);
    if t == [] {
      assert rest == [] + "[[" + y + "]]" + "\n" + u;
    }
    assert rest == [] || !IsSpace(rest[0]);
    MarkerDropped([], x, "\n", rest);
    assert [] + "[[" == "[[";
  }

  /** A `[[` whose `]]` is only on a later line is not a marker and stays. */
  lemma SplitMarkerKept(p: seq<char>, x: seq<char>, y: seq<char>)
    requires forall k :: 0 <= k < |p| ==> p[k] != '['
    requires forall k :: 0 <= k < |x| ==> x[k] != ']' && x[k] != '['
    requires forall k :: 0 <= k < |y| ==> y[k] != ']' && y[k] != '['
    ensures RemoveBracketTags(p + "[[" + x + "\n" + y + "]]") == p + "[[" + x + "\n" + y + "]]"
  {
    var s := p + "[[" + x + "\n" + y + "]]";
    var n := |p| + 2 + |x|;
    assert s[n] == '\n';
    forall i: nat, j: nat | OpensAt(s, i) && i + 2 <= j && ClosesAt(s, j)
      ensures !NoNewline(s, i + 2, j)
    {
      assert i == |p|;
      assert j == n + 1 + |y|;
    }
    UnchangedIffNoMarker(s);
  }
}
