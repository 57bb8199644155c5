/**
 * The earlier draft of the daemon, unit-rfid2/desktop-unlock.py: every
 * stripped line that carries "Card UID:" is a scan; the scanned UID is the
 * text between the first and the second colon of the line, stripped, and it
 * must equal the built-in UID exactly; a match unlocks the current session
 * with no lock-state query, a mismatch is reported as denied.
 */
module Draft {
  import opened Text
  import opened Uid
  import opened Session
  import opened Daemon

  /** The UID the draft accepts, compared as written (desktop-unlock.py:12). */
  const AuthorizedUid := "EC A6 0D 48"

  /** A line that carries the marker has a colon, so `split(":")` gives at least two parts. */
  lemma MarkerHasColon(line: string)
    requires Contains(line, Marker)
    ensures Contains(line, ":")
  {
    var k := IndexOf(line, Marker).value;
    IndexOfFinds(line, Marker);
    assert line[k + 8] == line[k..k + 9][8] == ':';
    assert line[k + 8..k + 9] == ":";
    ContainsOccurs(line, ":");
    assert OccursAt(line, ":", k + 8);
  }

  /** The draft's scan: `line.split(":")[1].strip()` on a line that carries the marker. */
  function DraftScan(line: string): (r: Option<string>)
    ensures r.Some? <==> Contains(line, Marker)
  {
    if Contains(line, Marker) then
      MarkerHasColon(line);
      Some(Strip(SplitSecond(line, ":").value))
    else None
  }

  /** The calls and messages produced by one line read by the draft (desktop-unlock.py:31-42). */
  function DraftLineEvents(line: string): (r: seq<Event>)
    ensures r == [] || r == [UnlockCurrent] || r == [AccessDenied]
    ensures r != [] <==> Contains(Strip(line), Marker)
  {
    match DraftScan(Strip(line))
    case None => []
    case Some(uid) => if uid == AuthorizedUid then [UnlockCurrent] else [AccessDenied]
  }

  /**
   * A line unlocks exactly when its scanned text is the built-in UID as
   * written; any other scan is denied, and a line without the marker does
   * nothing. There is never a lock-state query, a lock, or a session search.
   */
  lemma DraftLineOutcome(line: string)
    ensures DraftLineEvents(line) == [UnlockCurrent] <==> DraftScan(Strip(line)) == Some(AuthorizedUid)
    ensures DraftLineEvents(line) == [AccessDenied]
      <==> DraftScan(Strip(line)).Some? && DraftScan(Strip(line)).value != AuthorizedUid
    ensures DraftLineEvents(line) == [] <==> !Contains(Strip(line), Marker)
  {
  }

  /** All calls and messages for the lines read so far, in order. */
  function DraftServeEvents(lines: seq<string>): (r: seq<Event>)
    ensures |r| <= |lines|
  {
    if lines == [] then []
    else DraftServeEvents(lines[..|lines| - 1]) + DraftLineEvents(lines[|lines| - 1])
  }

  /**
   * The draft only ever unlocks the current session or reports a denial, at
   * most once per line: it never queries the lock state and never locks.
   */
  lemma {:induction false} DraftNeverLocks(lines: seq<string>)
    ensures forall e :: e in DraftServeEvents(lines) ==> e == UnlockCurrent || e == AccessDenied
    ensures |DraftServeEvents(lines)| <= |lines|
  {
    if lines != [] {
      DraftNeverLocks(lines[..|lines| - 1]);
      DraftLineOutcome(lines[|lines| - 1]);
    }
  }

  /** When every line read is a scan, the draft answers each with exactly one unlock or denial. */
  lemma {:induction false} DraftAnswersEveryScan(lines: seq<string>)
    requires forall i :: 0 <= i < |lines| ==> Contains(Strip(lines[i]), Marker)
    ensures |DraftServeEvents(lines)| == |lines|
  {
    if lines != [] {
      var n := |lines| - 1;
      var init := lines[..n];
      forall i | 0 <= i < n ensures Contains(Strip(init[i]), Marker) {
        assert init[i] == lines[i];
      }
      DraftAnswersEveryScan(init);
      assert DraftServeEvents(lines) == DraftServeEvents(init) + DraftLineEvents(lines[n]);
      assert Contains(Strip(lines[n]), Marker);
      assert |DraftLineEvents(lines[n])| == 1;
    }
  }

  /** One pass of the draft's loop body (desktop-unlock.py:31-42) for a line already read and decoded. */
  method DraftHandleLine(line: string) returns (events: seq<Event>)
    ensures events == DraftLineEvents(line)
  {
    events := [];
    var text := Strip(line);
    if Contains(text, Marker) {
      var scanned := DraftScan(text).value;
      if scanned == AuthorizedUid {
        events := [UnlockCurrent];
      } else {
        events := [AccessDenied];
      }
    }
  }

  /** The `while True` loop of the draft's main (desktop-unlock.py:28-42) over the lines read, in order. */
  method DraftServe(lines: seq<string>) returns (trace: seq<Event>)
    ensures trace == DraftServeEvents(lines)
  {
    trace := [];
    var i := 0;
    while i < |lines|
      invariant 0 <= i <= |lines|
      invariant trace == DraftServeEvents(lines[..i])
    {
      var events := DraftHandleLine(lines[i]);
      assert lines[..i + 1][..i] == lines[..i] && lines[..i + 1][i] == lines[i];
      trace := trace + events;
      i := i + 1;
    }
    assert lines[..i] == lines;
  }

  // ---------------------------------------------------------------------------
  // The draft against the daemon

  /** A prefix without a colon cannot hold the start of a marker, whose ninth character is one. */
  lemma ColonFreeHasNoMarker(p: string)
    requires ':' !in p
    ensures !Contains(p + Marker[..8], Marker)
  {
    var u := p + Marker[..8];
    forall j: nat ensures !OccursAt(u, Marker, j) {
      if j + 9 <= |u| {
        assert u[j..j + 9][8] == u[j + 8];
      }
    }
    ContainsOccurs(u, Marker);
  }

  /** Where neither the prefix nor the payload holds a colon, the draft and the daemon extract the same UID. */
  lemma DraftAgreesWithoutColons(p: string, q: string)
    requires ':' !in p && ':' !in q
    ensures DraftScan(p + Marker + q) == Some(Strip(q))
    ensures ScannedUid(p + Marker + q) == Some(Strip(q))
  {
    var s := p + Marker + q;
    var k := |p| + 8;
    assert s[k] == ':';
    forall j | 0 <= j < k ensures s[j] != ':' {
      if j >= |p| {
        assert s[j] == Marker[j - |p|];
      }
    }
    CharIndex(s, ':', k);
    assert s[k + 1..] == q;
    CharAbsent(q, ':');
    assert SplitSecond(s, ":") == Some(q);
    ColonFreeHasNoMarker(p);
    MarkerFirstAt(p, q);
    ContainsOccurs(s, Marker);
    ContainsOccurs(q, Marker);
    forall j: nat ensures !OccursAt(q, Marker, j) {
      if j + 9 <= |q| {
        assert q[j..j + 9][8] == q[j + 8];
      }
    }
    ScannedUidOfScanLine(p, q);
  }

  /**
   * A colon before the marker moves the draft's field: with the prefix
   * `a:b`, the draft reads the text between that colon and the marker's,
   * `b` followed by "Card UID", whatever the card's UID was.
   */
  lemma DraftReadsPrefix(a: string, b: string, q: string)
    requires ':' !in a && ':' !in b
    ensures DraftScan(a + ":" + b + Marker + q) == Some(Strip(b + "Card UID"))
  {
    var s := a + ":" + b + Marker + q;
    var k := |a|;
    assert s[k] == ':';
    CharIndex(s, ':', k);
    var rest := s[k + 1..];
    assert rest == b + Marker + q;
    var m := |b| + 8;
    assert rest[m] == ':';
    forall j | 0 <= j < m ensures rest[j] != ':' {
      if j >= |b| {
        assert rest[j] == Marker[j - |b|];
      }
    }
    CharIndex(rest, ':', m);
    assert rest[..m] == b + "Card UID";
    assert Contains(s, Marker) by {
      assert s[|a| + 1 + |b|..|a| + 1 + |b| + 9] == Marker;
      ContainsOccurs(s, Marker);
      assert OccursAt(s, Marker, |a| + 1 + |b|);
    }
  }

  /** The built-in card in lower case holds neither a colon nor surrounding whitespace. */
  lemma LowerCard(q: string)
    requires q == "ec a6 0d 48"
    ensures ':' !in q && Strip(q) == q && !Contains(q, Marker)
  {
    assert !IsSpace(q[0]) && !IsSpace(q[|q| - 1]);
    StripKeeps(q);
    forall j: nat ensures !OccursAt(q, Marker, j) {
      if j + 9 <= |q| {
        assert q[j..j + 9][8] == q[j + 8];
      }
    }
    ContainsOccurs(q, Marker);
  }

  /**
   * The draft compares without normalising: a line whose stripped text is a
   * colon-free prefix, the marker and "ec a6 0d 48" is denied, although that
   * is the built-in card written in lower case...
   */
  lemma DraftIsCaseSensitive(line: string, p: string)
    requires ':' !in p && Strip(line) == p + Marker + "ec a6 0d 48"
    ensures DraftLineEvents(line) == [AccessDenied]
  {
    var q := "ec a6 0d 48";
    LowerCard(q);
    DraftAgreesWithoutColons(p, q);
    assert q != AuthorizedUid by {
      assert q[0] != AuthorizedUid[0];
    }
  }

  /**
   * ...while the daemon, given the same UID as its authorised one, toggles
   * the lock on any line whose stripped text is the marker and "ec a6 0d 48"
   * after a prefix in which no marker starts, colons and timestamps included.
   */
  lemma DaemonIgnoresCase(line: string, p: string, d: Desktop)
    requires Strip(line) == p + Marker + "ec a6 0d 48" && !Contains(p + Marker[..8], Marker)
    ensures LineEvents(Config(Normalize(AuthorizedUid), false), line, d) == ToggleEvents(d)
  {
    var q := "ec a6 0d 48";
    LowerCard(q);
    NormalizeExample();
    ScanLineOutcome(Config(Normalize(AuthorizedUid), false), line, p, q, d);
  }

  /** A timestamp such as "12:00:01 " before the marker holds no start of a marker. */
  lemma TimestampPrefix(p: string)
    requires p == "12:00:01 "
    ensures !Contains(p + Marker[..8], Marker)
  {
    var u := p + Marker[..8];
    assert u == "12:00:01 Card UID";
    forall j: nat ensures !OccursAt(u, Marker, j) {
      if j + 9 <= |u| {
        assert u[j..j + 9][8] == u[j + 8] != ':';
      }
    }
    ContainsOccurs(u, Marker);
  }
}
