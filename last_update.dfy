/** The first pass over the data page: the "last updated" stamp. */
module LastUpdatePass {
  import opened Wrappers
  import opened Strings

  const UpdateMarker := "aktualisiert am"

  /** An infix of an infix is an infix. */
  lemma OccursAtTrans(a: string, b: string, c: string, i: int, j: int)
    requires OccursAt(a, b, i) && OccursAt(b, c, j)
    ensures OccursAt(a, c, i + j)
  {
    forall k | 0 <= k < |c| ensures a[i + j + k] == c[k] {
      assert c[k] == b[j + k];
      assert b[j + k] == a[i + j + k];
    }
  }

  /** The token with `"` and then `'` stripped from both ends, cut before the first `<`. */
  function CleanToken(token: string): (r: string)
    ensures '<' !in r
  {
    Before(Strip(Strip(token, '"'), '\''), '<')
  }

  lemma StripOccurs(s: string, c: char)
    ensures OccursAt(s, Strip(s, c), |s| - |StripLeft(s, c)|)
  {
    PaddedOccurs(s, Strip(s, c), c, |s| - |StripLeft(s, c)|);
  }

  /** Cleaning keeps a contiguous piece of the token. */
  lemma CleanTokenInfix(token: string)
    ensures exists i :: OccursAt(token, CleanToken(token), i)
  {
    var s1 := Strip(token, '"');
    var s2 := Strip(s1, '\'');
    var r := Before(s2, '<');
    StripOccurs(token, '"');
    StripOccurs(s1, '\'');
    var i1 := |token| - |StripLeft(token, '"')|;
    var i2 := |s1| - |StripLeft(s1, '\'')|;
    assert OccursAt(s2, r, 0);
    OccursAtTrans(s1, s2, r, i2, 0);
    OccursAtTrans(token, s1, r, i1, i2);
    assert r == CleanToken(token);
  }

  /**
   * The stamp reported for the page text: "Connected" without the marker,
   * "Unknown" when nothing but whitespace follows it (up to its next
   * occurrence), otherwise the first token after it, cleaned.
   */
  function LastUpdate(text: string): (r: string)
    ensures !Contains(text, UpdateMarker) ==> r == "Connected"
    ensures '<' !in r
    ensures forall j :: 0 <= j < |r| ==> !IsSpace(r[j])
  {
    if Contains(text, UpdateMarker) then
      var segment := SecondPart(text, UpdateMarker);
      match FirstToken(segment)
      case None => "Unknown"
      case Some(token) =>
        CleanFirstToken(segment);
        CleanToken(token)
    else
      "Connected"
  }

  /** The cleaned first token of a segment is a piece of it without `<` or whitespace. */
  lemma CleanFirstToken(segment: string)
    requires FirstToken(segment).Some?
    ensures var r := CleanToken(FirstToken(segment).value);
      && '<' !in r
      && (forall j :: 0 <= j < |r| ==> !IsSpace(r[j]))
      && exists i :: OccursAt(segment, r, i)
  {
    var token := FirstToken(segment).value;
    var k :| FirstTokenAt(segment, token, k);
    assert OccursAt(segment, token, k);
    var r := CleanToken(token);
    CleanTokenInfix(token);
    var i :| OccursAt(token, r, i);
    OccursAtTrans(segment, token, r, k, i);
    InfixHasNoSpace(token, r, i);
  }

  lemma InfixHasNoSpace(a: string, b: string, i: int)
    requires OccursAt(a, b, i)
    requires forall j :: 0 <= j < |a| ==> !IsSpace(a[j])
    ensures forall j :: 0 <= j < |b| ==> !IsSpace(b[j])
  {
    assert forall j :: 0 <= j < |b| ==> b[j] == a[i + j];
  }

  /** A text with the marker but only whitespace after it (up to its next occurrence). */
  predicate StampMissing(text: string)
  {
    Contains(text, UpdateMarker) &&
    var segment := SecondPart(text, UpdateMarker);
    forall j :: 0 <= j < |segment| ==> IsSpace(segment[j])
  }

  /** What the stamp is, in each of the three cases. */
  lemma LastUpdateCases(text: string)
    ensures !Contains(text, UpdateMarker) ==> LastUpdate(text) == "Connected"
    ensures StampMissing(text) ==> LastUpdate(text) == "Unknown"
    ensures Contains(text, UpdateMarker) && !StampMissing(text) ==>
      var r := LastUpdate(text);
      && '<' !in r
      && (forall j :: 0 <= j < |r| ==> !IsSpace(r[j]))
      && exists i :: OccursAt(SecondPart(text, UpdateMarker), r, i)
  {
    if Contains(text, UpdateMarker) && !StampMissing(text) {
      CleanFirstToken(SecondPart(text, UpdateMarker));
    }
  }
}
