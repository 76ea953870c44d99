/** Finding the appointment payload in the search result page
    (extractAppointmentsJSONFromHtml, main.go:255-263).

    The source runs the RE2 pattern `var jsonAppoints = '(.*?)'` and keeps the first
    submatch of the leftmost match. Under RE2's defaults `.` matches every character but a
    line feed, and the lazy `*?` stops at the first quote, so a match starting at `i` exists
    exactly when the marker text sits at `i` and the first quote or line feed after it is a
    quote. The model searches the text directly instead of running a regex engine. */
module Extraction {
  import opened Wrappers

  /** The literal text that opens the payload; its last character is the opening quote. */
  const Marker: string := "var jsonAppoints = '"

  /** Positions a..b-1 of `body` hold neither a single quote nor a line feed. */
  predicate CleanBetween(body: string, a: int, b: int)
    requires 0 <= a && b <= |body|
  {
    forall m :: a <= m < b ==> body[m] != '\'' && body[m] != '\n'
  }

  /** No single quote and no line feed anywhere in `s`. */
  predicate Clean(s: string)
  {
    CleanBetween(s, 0, |s|)
  }

  /** The marker text occurs in `body` at position i. */
  predicate MarkerAt(body: string, i: int)
  {
    0 <= i && i + |Marker| <= |body| && body[i..i + |Marker|] == Marker
  }

  /** The pattern matches `body` from position i with its closing quote at j. */
  predicate ClosesAt(body: string, i: int, j: int)
  {
    MarkerAt(body, i) && i + |Marker| <= j < |body|
    && body[j] == '\''
    && CleanBetween(body, i + |Marker|, j)
  }

  /** (i, j) is the leftmost match: no match starts before i. */
  ghost predicate Leftmost(body: string, i: int, j: int)
  {
    ClosesAt(body, i, j) && forall i', j' :: 0 <= i' < i ==> !ClosesAt(body, i', j')
  }

  /** Where the leftmost match starts and where its closing quote is. */
  datatype Span = Span(start: nat, close: nat)

  /** The closing quote for a capture that begins at k: the first quote after k, provided no
      line feed comes before it. */
  function CloseFrom(body: string, k: nat): (r: Option<nat>)
    decreases |body| - k
    ensures r.Some? ==> k <= r.value < |body| && body[r.value] == '\'' && CleanBetween(body, k, r.value)
    ensures r.None? ==> forall j :: k <= j < |body| && body[j] == '\'' ==> !CleanBetween(body, k, j)
  {
    if k >= |body| then None
    else if body[k] == '\'' then Some(k)
    else if body[k] == '\n' then None
    else CloseFrom(body, k + 1)
  }

  /** The leftmost match starting at i or later, as the regex engine scans forward: an
      occurrence of the marker whose capture is cut by a line feed is passed over. */
  function Locate(body: string, i: nat): (r: Option<Span>)
    decreases |body| - i
    ensures r.Some? ==> i <= r.value.start && ClosesAt(body, r.value.start, r.value.close)
    ensures r.Some? ==> forall p, j :: i <= p < r.value.start ==> !ClosesAt(body, p, j)
    ensures r.None? ==> forall p, j :: i <= p ==> !ClosesAt(body, p, j)
  {
    if i + |Marker| > |body| then None
    else if body[i..i + |Marker|] == Marker then
      match CloseFrom(body, i + |Marker|)
      case Some(j) => Some(Span(i, j))
      case None => Locate(body, i + 1)
    else Locate(body, i + 1)
  }

  /** The captured payload, or None where the source returns its extraction error. */
  function Extract(body: string): (r: Option<string>)
    ensures r.None? <==> forall i, j :: !ClosesAt(body, i, j)
    ensures r.Some? ==> Clean(r.value)
    ensures r.Some? ==> exists i, j :: Leftmost(body, i, j) && r.value == body[i + |Marker|..j]
  {
    match Locate(body, 0)
    case Some(span) =>
      var s := body[span.start + |Marker|..span.close];
      assert forall m :: 0 <= m < |s| ==> s[m] == body[span.start + |Marker| + m];
      assert Leftmost(body, span.start, span.close);
      Some(s)
    case None => None
  }

  /** A match has a single closing quote: the first one after the marker. */
  lemma CloseUnique(body: string, i: int, j: int, j': int)
    requires ClosesAt(body, i, j) && ClosesAt(body, i, j')
    ensures j == j'
  {
  }

  /** Whatever the leftmost match is, Extract returns its capture. */
  lemma ExtractLeftmost(body: string, i: int, j: int)
    requires Leftmost(body, i, j)
    ensures Extract(body) == Some(body[i + |Marker|..j])
  {
    var span := Locate(body, 0).value;
    assert ClosesAt(body, span.start, span.close);
    assert span.start == i;
    CloseUnique(body, i, j, span.close);
  }

  /** Facts about the marker text that the lemmas below rely on. */
  lemma MarkerShape()
    ensures |Marker| == 20 && Marker[0] == 'v'
    ensures 'v' !in Marker[1..] && '\n' !in Marker
  {
  }

  /** Every occurrence of the marker in `p` meets a line feed, within `p`, before any
      closing quote: none of them can begin a match, whatever follows `p`. */
  ghost predicate Settled(p: string)
  {
    forall i :: MarkerAt(p, i) ==>
      exists n :: i + |Marker| <= n < |p| && p[n] == '\n' && CleanBetween(p, i + |Marker|, n)
  }

  /** A marker occurrence lying wholly inside a settled prefix starts no match. */
  lemma SettledStartsNoMatch(p: string, rest: string, i: int, j: int)
    requires Settled(p) && 0 <= i && i + |Marker| <= |p|
    ensures !ClosesAt(p + rest, i, j)
  {
    var body := p + rest;
    assert body[i..i + |Marker|] == p[i..i + |Marker|];
    if MarkerAt(p, i) {
      var n :| i + |Marker| <= n < |p| && p[n] == '\n' && CleanBetween(p, i + |Marker|, n);
      assert body[n] == '\n';
      assert forall m :: i + |Marker| <= m < n ==> body[m] == p[m];
    }
  }

  /** With a settled prefix ending in a line feed, no match starts inside the prefix: one
      lying wholly inside is cut by its line feed, and none can straddle the final one. */
  lemma NoMatchInSettledPrefix(p: string, q: string)
    requires Settled(p) && |p| > 0 && p[|p| - 1] == '\n'
    ensures forall i, j :: 0 <= i < |p| ==> !ClosesAt(p + q, i, j)
  {
    var body := p + q;
    MarkerShape();
    forall i, j | 0 <= i < |p|
      ensures !ClosesAt(body, i, j)
    {
      if i + |Marker| <= |p| {
        SettledStartsNoMatch(p, q, i, j);
      } else if i + |Marker| <= |body| {
        assert body[i..i + |Marker|][|p| - 1 - i] == '\n';
      }
    }
  }

  /** Matches in `p + q` past the end of `p` are the matches in `q`, shifted. */
  lemma ClosesAtShift(p: string, q: string, i: int, j: int)
    requires 0 <= i
    ensures ClosesAt(p + q, |p| + i, |p| + j) <==> ClosesAt(q, i, j)
  {
    var body := p + q;
    if i + |Marker| <= j < |q| {
      assert body[|p| + i..|p| + i + |Marker|] == q[i..i + |Marker|];
      assert forall m :: i + |Marker| <= m < j ==> body[|p| + m] == q[m];
    }
  }

  /** Past a prefix in which no match starts, the matches are those of the rest, shifted. */
  lemma NoMatchAfterPrefix(p: string, q: string)
    requires forall i, j :: 0 <= i < |p| ==> !ClosesAt(p + q, i, j)
    requires forall i, j :: !ClosesAt(q, i, j)
    ensures forall i, j :: !ClosesAt(p + q, i, j)
  {
    forall i, j | |p| <= i
      ensures !ClosesAt(p + q, i, j)
    {
      ClosesAtShift(p, q, i - |p|, j - |p|);
    }
  }

  /** Past a prefix in which no match starts, the leftmost match is that of the rest, shifted. */
  lemma LeftmostAfterPrefix(p: string, q: string, a: int, b: int)
    requires forall i, j :: 0 <= i < |p| ==> !ClosesAt(p + q, i, j)
    requires Leftmost(q, a, b)
    ensures Leftmost(p + q, |p| + a, |p| + b)
  {
    ClosesAtShift(p, q, a, b);
    forall i, j | |p| <= i < |p| + a
      ensures !ClosesAt(p + q, i, j)
    {
      ClosesAtShift(p, q, i - |p|, j - |p|);
    }
  }

  /** A settled prefix ending in a line feed is skipped: the payload is looked for in what
      follows, as if the prefix were not there. */
  lemma ExtractSkipsSettledPrefix(p: string, q: string)
    requires Settled(p) && |p| > 0 && p[|p| - 1] == '\n'
    ensures Extract(p + q) == Extract(q)
  {
    NoMatchInSettledPrefix(p, q);
    ExtractAfterDeadPrefix(p, q);
  }

  /** Past a prefix in which no match starts, Extract finds what it finds in the rest. */
  lemma ExtractAfterDeadPrefix(p: string, q: string)
    requires forall i, j :: 0 <= i < |p| ==> !ClosesAt(p + q, i, j)
    ensures Extract(p + q) == Extract(q)
  {
    if Extract(q).None? {
      NoMatchAfterPrefix(p, q);
    } else {
      var a, b :| Leftmost(q, a, b) && Extract(q).value == q[a + |Marker|..b];
      LeftmostAfterPrefix(p, q, a, b);
      CaptureAfterPrefix(p, q, a, b);
    }
  }

  /** The capture of a match past the prefix is the capture of the shifted match in the rest. */
  lemma CaptureAfterPrefix(p: string, q: string, a: int, b: int)
    requires Leftmost(p + q, |p| + a, |p| + b) && 0 <= a
    ensures Extract(p + q) == Some(q[a + |Marker|..b])
  {
    ExtractLeftmost(p + q, |p| + a, |p| + b);
    assert (p + q)[|p| + a + |Marker|..|p| + b] == q[a + |Marker|..b];
  }

  /** The payload after a settled prefix is recovered exactly: for
      p + "var jsonAppoints = '" + s + "'" + q with s free of quotes and line feeds, the
      result is s, whatever q holds. */
  lemma {:induction false} ExtractWrapped(p: string, s: string, q: string)
    requires Settled(p) && Clean(s)
    ensures Extract(p + Marker + s + "'" + q) == Some(s)
  {
    var body := p + Marker + s + "'" + q;
    var i, j := |p|, |p| + |Marker| + |s|;
    MarkerShape();
    assert body[i..i + |Marker|] == Marker;
    assert body[j] == '\'';
    assert forall m :: i + |Marker| <= m < j ==> body[m] == s[m - i - |Marker|];
    assert ClosesAt(body, i, j);
    forall i', j' | 0 <= i' < i
      ensures !ClosesAt(body, i', j')
    {
      assert body == p + (Marker + s + "'" + q);
      if i' + |Marker| <= |p| {
        SettledStartsNoMatch(p, Marker + s + "'" + q, i', j');
      } else if i' + |Marker| <= |body| {
        assert body[i'..i' + |Marker|][|p| - i'] == 'v';
        assert Marker[|p| - i'] == Marker[1..][|p| - i' - 1];
      }
    }
    assert Leftmost(body, i, j);
    ExtractLeftmost(body, i, j);
    assert body[i + |Marker|..j] == s;
  }
}
