/**
 * The serial-line loop of unit-rfid2/rfid-unlock.py (:178-216): every line
 * read from the reader is stripped; unless the daemon runs dry, a line that
 * carries "Card UID:" is a scan, whose UID is normalised and compared with the
 * authorised one; a match toggles the screen lock (query, then unlock if
 * locked and lock otherwise), a mismatch is logged as denied.
 */
module Daemon {
  import opened Text
  import opened Uid
  import opened Session
  import opened Secret

  /** The text that marks a scan line from the reader. */
  const Marker := "Card UID:"

  /** What the loop knows: the normalised authorised UID and the `--dry-run` flag. */
  datatype Config = Config(authorized: string, dryRun: bool)

  /**
   * The raw UID of a scan line, `line.split("Card UID:")[1].strip()`, or `None`
   * when the line carries no marker and is not a scan.
   */
  function ScannedUid(line: string): (raw: Option<string>)
    ensures raw.Some? <==> Contains(line, Marker)
  {
    match SplitSecond(line, Marker)
    case None => None
    case Some(field) => Some(Strip(field))
  }

  /**
   * The raw UID is the field after the first marker, up to the next marker,
   * stripped: it stands inside the line right after the marker, holds no
   * marker, and starts and ends with a character that is not whitespace.
   */
  lemma ScannedUidIsField(line: string, k: nat)
    requires IndexOf(line, Marker) == Some(k)
    ensures var field := SplitSecond(line, Marker).value;
      && IsFieldAt(line, Marker, k + |Marker|, field)
      && ScannedUid(line) == Some(Strip(field))
      && !Contains(ScannedUid(line).value, Marker)
      && (ScannedUid(line).value != [] ==>
            !IsSpace(ScannedUid(line).value[0]) && !IsSpace(ScannedUid(line).value[|ScannedUid(line).value| - 1]))
  {
    var field := SplitSecond(line, Marker).value;
    SplitSecondIsField(line, Marker, k);
    StripKeepsAbsent(field, Marker);
    StripTrims(field);
  }

  /** Stripping never creates an occurrence that was not there. */
  lemma StripKeepsAbsent(s: string, t: string)
    requires !Contains(s, t)
    ensures !Contains(Strip(s), t)
  {
    var r := Strip(s);
    StripTrims(s);
    ContainsOccurs(s, t);
    ContainsOccurs(r, t);
    var k := |s| - |TrimStart(s)|;
    assert s[k..][..|r|] == r;
    forall j: nat | OccursAt(r, t, j) ensures false {
      OccursInPrefix(s[k..], t, |r|, j);
      OccursInSuffix(s, t, k, j);
    }
  }

  /**
   * The first marker of `p` + "Card UID:" + `q` is the one after `p`, unless
   * one already starts inside `p`, that is, unless `p` + "Card UID" holds it.
   */
  lemma MarkerFirstAt(p: string, q: string)
    requires !Contains(p + Marker[..8], Marker)
    ensures IndexOf(p + Marker + q, Marker) == Some(|p|)
  {
    var s := p + Marker + q;
    var u := p + Marker[..8];
    assert s[|p|..|p| + |Marker|] == Marker;
    assert OccursAt(s, Marker, |p|);
    ContainsOccurs(u, Marker);
    forall j: nat | j < |p| ensures !OccursAt(s, Marker, j) {
      assert s[j..j + 9] == u[j..j + 9];
      assert !OccursAt(u, Marker, j);
    }
    IndexOfFirst(s, Marker, |p|);
  }

  /**
   * On a line that is some prefix, the marker, then a payload without a
   * further marker, where no marker starts inside the prefix, the scanned UID
   * is the stripped payload.
   */
  lemma ScannedUidOfScanLine(p: string, q: string)
    requires !Contains(p + Marker[..8], Marker) && !Contains(q, Marker)
    ensures ScannedUid(p + Marker + q) == Some(Strip(q))
  {
    var s := p + Marker + q;
    MarkerFirstAt(p, q);
    assert s[|p| + |Marker|..] == q;
  }

  /**
   * The calls of unlock_screen (:113-137): wake the display, then the calls
   * of the session search, then unlock the session found, then reset the idle
   * timer.
   */
  function UnlockEvents(d: Desktop): (r: seq<Event>)
    ensures |r| >= 4 && r[0] == Wake && r[|r| - 1] == ResetIdle
    ensures r[|r| - 2] == UnlockSession(DiscoverSession(d.sessions, d.sessionInfo).id)
    ensures r[1..|r| - 2] == DiscoverSession(d.sessions, d.sessionInfo).calls
  {
    var disc := DiscoverSession(d.sessions, d.sessionInfo);
    var r := [Wake] + disc.calls + [UnlockSession(disc.id), ResetIdle];
    assert r[1..|r| - 2] == disc.calls;
    r
  }

  /**
   * Each of the four steps happens exactly once: one wake-up, one unlock (of
   * the session the search found), one idle reset; and the unlock sequence
   * never locks, never queries the lock state and logs no denial.
   */
  lemma UnlockStepsOnce(d: Desktop)
    ensures var r := UnlockEvents(d);
      && multiset(r)[Wake] == 1 && multiset(r)[ResetIdle] == 1
      && multiset(r)[UnlockSession(DiscoverSession(d.sessions, d.sessionInfo).id)] == 1
      && (forall e :: e in r && e.UnlockSession? ==> e == r[|r| - 2])
      && multiset(r)[Lock] == 0 && multiset(r)[QueryLocked] == 0 && multiset(r)[AccessDenied] == 0
  {
    var r := UnlockEvents(d);
    var disc := DiscoverSession(d.sessions, d.sessionInfo);
    var probes := disc.calls;
    assert r == [Wake] + probes + [UnlockSession(disc.id), ResetIdle];
    assert multiset(r) == multiset{Wake} + multiset(probes) + multiset{UnlockSession(disc.id), ResetIdle};
    NotAProbe(probes, Wake);
    NotAProbe(probes, ResetIdle);
    NotAProbe(probes, Lock);
    NotAProbe(probes, QueryLocked);
    NotAProbe(probes, AccessDenied);
    NotAProbe(probes, UnlockSession(disc.id));
    forall e | e in r && e.UnlockSession? ensures e == r[|r| - 2] {
      assert e !in probes;
    }
  }

  lemma NotAProbe(probes: seq<Event>, e: Event)
    requires forall x :: x in probes ==> IsProbe(x)
    requires !IsProbe(e)
    ensures multiset(probes)[e] == 0
  {
  }

  /**
   * The toggle at :210-214: one lock-state query, then the unlock sequence if
   * the screen is locked, a single lock otherwise.
   */
  function ToggleEvents(d: Desktop): (r: seq<Event>)
    ensures r != [] && r[0] == QueryLocked
    ensures ScreenLocked(d.screenSaver) ==> r[1..] == UnlockEvents(d)
    ensures !ScreenLocked(d.screenSaver) ==> r[1..] == [Lock]
  {
    if ScreenLocked(d.screenSaver) then
      var u := UnlockEvents(d);
      assert ([QueryLocked] + u)[1..] == u;
      [QueryLocked] + u
    else [QueryLocked, Lock]
  }

  /**
   * A toggle queries the lock state once; when locked it runs the unlock
   * sequence and does not lock, when unlocked it locks once and runs no
   * unlock step.
   */
  lemma ToggleOutcome(d: Desktop)
    ensures var r := ToggleEvents(d);
      && multiset(r)[QueryLocked] == 1 && multiset(r)[AccessDenied] == 0
      && (ScreenLocked(d.screenSaver) ==> multiset(r)[Lock] == 0 && multiset(r)[Wake] == 1 && multiset(r)[ResetIdle] == 1)
      && (!ScreenLocked(d.screenSaver) ==>
            && multiset(r)[Lock] == 1 && multiset(r)[Wake] == 0 && multiset(r)[ResetIdle] == 0
            && forall e :: e in r ==> !e.UnlockSession?)
  {
    var r := ToggleEvents(d);
    assert r == [QueryLocked] + r[1..];
    if ScreenLocked(d.screenSaver) {
      UnlockStepsOnce(d);
    }
  }

  /** The calls and log lines produced by one line read from the reader (:198-216). */
  function LineEvents(cfg: Config, line: string, d: Desktop): (r: seq<Event>)
    ensures r == [] || r == [AccessDenied] || r == ToggleEvents(d)
    ensures r != [] <==> !cfg.dryRun && Contains(Strip(line), Marker)
  {
    if cfg.dryRun then []
    else
      match ScannedUid(Strip(line))
      case None => []
      case Some(raw) => if Normalize(raw) == cfg.authorized then ToggleEvents(d) else [AccessDenied]
  }

  /** The line is a scan whose UID matches the authorised one (and the daemon is not running dry). */
  predicate Matches(cfg: Config, line: string)
    ensures Matches(cfg, line) ==> !cfg.dryRun && Contains(Strip(line), Marker)
  {
    !cfg.dryRun && ScannedUid(Strip(line)).Some? && Normalize(ScannedUid(Strip(line)).value) == cfg.authorized
  }

  /**
   * Decision table of the loop body, for a line made of a prefix in which no
   * marker starts, the marker and a payload: the line toggles the lock exactly when
   * the normalised payload is the authorised UID, and is denied otherwise.
   */
  lemma ScanLineOutcome(cfg: Config, line: string, p: string, q: string, d: Desktop)
    requires !cfg.dryRun && Strip(line) == p + Marker + q
    requires !Contains(p + Marker[..8], Marker) && !Contains(q, Marker)
    ensures Normalize(Strip(q)) == cfg.authorized ==> LineEvents(cfg, line, d) == ToggleEvents(d)
    ensures Normalize(Strip(q)) != cfg.authorized ==> LineEvents(cfg, line, d) == [AccessDenied]
  {
    ScannedUidOfScanLine(p, q);
    assert ScannedUid(Strip(line)) == Some(Strip(q));
  }

  /** A line without the marker, or any line in a dry run, makes no call and logs no denial. */
  lemma NonScanIsIgnored(cfg: Config, line: string, d: Desktop)
    requires cfg.dryRun || !Contains(Strip(line), Marker)
    ensures LineEvents(cfg, line, d) == []
  {
  }

  /** A mismatching scan makes no session call and logs exactly one denial. */
  lemma MismatchIsDenied(cfg: Config, line: string, d: Desktop)
    requires !cfg.dryRun && Contains(Strip(line), Marker) && !Matches(cfg, line)
    ensures LineEvents(cfg, line, d) == [AccessDenied]
  {
  }

  // ---------------------------------------------------------------------------
  // The loop

  /** All calls and log lines for the lines read so far; `answers(i)` is how the desktop answers during line `i`. */
  function ServeEvents(cfg: Config, lines: seq<string>, answers: nat -> Desktop): (r: seq<Event>)
    ensures !cfg.dryRun && (forall i :: 0 <= i < |lines| ==> Contains(Strip(lines[i]), Marker)) ==> |r| >= |lines|
  {
    if lines == [] then []
    else
      var n := |lines| - 1;
      ServeEvents(cfg, lines[..n], answers) + LineEvents(cfg, lines[n], answers(n))
  }

  /** In a dry run the loop never makes a call nor logs a denial, whatever it reads. */
  lemma {:induction false} DryRunIsSilent(cfg: Config, lines: seq<string>, answers: nat -> Desktop)
    requires cfg.dryRun
    ensures ServeEvents(cfg, lines, answers) == []
  {
    if lines != [] {
      DryRunIsSilent(cfg, lines[..|lines| - 1], answers);
    }
  }

  /**
   * When no line matches, the only events are denials, one per scan line at
   * most: no session call of any kind is made.
   */
  lemma {:induction false} NoMatchNoSessionCall(cfg: Config, lines: seq<string>, answers: nat -> Desktop)
    requires forall i :: 0 <= i < |lines| ==> !Matches(cfg, lines[i])
    ensures forall e :: e in ServeEvents(cfg, lines, answers) ==> e == AccessDenied
    ensures |ServeEvents(cfg, lines, answers)| <= |lines|
  {
    if lines != [] {
      var n := |lines| - 1;
      var init, last := lines[..n], LineEvents(cfg, lines[n], answers(n));
      forall i | 0 <= i < n ensures !Matches(cfg, init[i]) {
        assert init[i] == lines[i];
      }
      NoMatchNoSessionCall(cfg, init, answers);
      assert ServeEvents(cfg, lines, answers) == ServeEvents(cfg, init, answers) + last;
      assert !Matches(cfg, lines[n]);
      assert last == [] || last == [AccessDenied];
    }
  }

  /** A line leads to one lock-state query if it matches, and to none otherwise. */
  lemma LineQueries(cfg: Config, line: string, d: Desktop)
    ensures multiset(LineEvents(cfg, line, d))[QueryLocked] == if Matches(cfg, line) then 1 else 0
  {
    if Matches(cfg, line) {
      assert LineEvents(cfg, line, d) == ToggleEvents(d);
      ToggleOutcome(d);
    } else {
      assert LineEvents(cfg, line, d) == [] || LineEvents(cfg, line, d) == [AccessDenied];
    }
  }

  /** How many of the lines match. */
  function MatchCount(cfg: Config, lines: seq<string>): (n: nat)
    ensures n <= |lines|
  {
    if lines == [] then 0
    else MatchCount(cfg, lines[..|lines| - 1]) + if Matches(cfg, lines[|lines| - 1]) then 1 else 0
  }

  /** Every lock-state query in the trace belongs to a matching line, one query per match. */
  lemma {:induction false} QueriesFollowMatches(cfg: Config, lines: seq<string>, answers: nat -> Desktop)
    ensures multiset(ServeEvents(cfg, lines, answers))[QueryLocked] == MatchCount(cfg, lines)
  {
    if lines != [] {
      var n := |lines| - 1;
      QueriesFollowMatches(cfg, lines[..n], answers);
      LineQueries(cfg, lines[n], answers(n));
      assert multiset(ServeEvents(cfg, lines, answers))
        == multiset(ServeEvents(cfg, lines[..n], answers)) + multiset(LineEvents(cfg, lines[n], answers(n)));
    }
  }

  /** unlock_screen (:113-137): wake the display, find the session, unlock it, reset the idle timer. */
  method UnlockScreen(d: Desktop) returns (calls: seq<Event>)
    ensures calls == UnlockEvents(d)
  {
    // Step 1; subprocess.run does not raise on a non-zero exit status, so every step runs.
    calls := [Wake];
    // Step 2
    var sid, probes := ActiveGraphicalSession(d.sessions, d.sessionInfo);
    calls := calls + probes + [UnlockSession(sid)];
    // Step 3
    calls := calls + [ResetIdle];
  }

  /** One pass of the loop body at :198-216 for a line already read and decoded. */
  method HandleLine(cfg: Config, line: string, d: Desktop) returns (events: seq<Event>)
    ensures events == LineEvents(cfg, line, d)
  {
    events := [];
    var text := Strip(line);
    if cfg.dryRun {
      return;
    }
    if Contains(text, Marker) {
      var raw := ScannedUid(text).value;
      if Normalize(raw) == cfg.authorized {
        events := [QueryLocked];
        if ScreenLocked(d.screenSaver) {
          var calls := UnlockScreen(d);
          events := events + calls;
        } else {
          events := events + [Lock];
        }
      } else {
        events := [AccessDenied];
      }
    }
  }

  /** The `while True` loop at :196-219 over the lines the reader delivers, in order. */
  method Serve(cfg: Config, lines: seq<string>, answers: nat -> Desktop) returns (trace: seq<Event>)
    ensures trace == ServeEvents(cfg, lines, answers)
  {
    trace := [];
    var i := 0;
    while i < |lines|
      invariant 0 <= i <= |lines|
      invariant trace == ServeEvents(cfg, lines[..i], answers)
    {
      var events := HandleLine(cfg, lines[i], answers(i));
      assert lines[..i + 1][..i] == lines[..i] && lines[..i + 1][i] == lines[i];
      assert ServeEvents(cfg, lines[..i + 1], answers) == trace + events;
      trace := trace + events;
      i := i + 1;
    }
    assert lines[..i] == lines;
  }

  /** How a run of the daemon ends: it stops at start-up, or it serves the lines it reads. */
  datatype Outcome = NoUidCrash | Served(trace: seq<Event>)

  /**
   * main() from the UID resolution on (:178-216): without a UID from any
   * source the program fails before the serial port is opened; otherwise it
   * serves every line with the resolved, normalised UID.
   */
  method Run(flag: string, envUid: Option<string>, file: ConfigFile, dryRun: bool,
             lines: seq<string>, answers: nat -> Desktop)
    returns (outcome: Outcome)
    ensures flag == [] && !Given(envUid) && FileUid(file).None? <==> outcome == NoUidCrash
    ensures flag != [] ==> outcome == Served(ServeEvents(Config(Normalize(flag), dryRun), lines, answers))
    ensures flag == [] && Given(envUid) ==>
      outcome == Served(ServeEvents(Config(Normalize(envUid.value), dryRun), lines, answers))
    ensures flag == [] && !Given(envUid) && FileUid(file).Some? ==>
      outcome == Served(ServeEvents(Config(FileUid(file).value, dryRun), lines, answers))
  {
    var resolved := ResolveAuthorized(flag, envUid, file);
    if resolved.Unspecified? {
      return NoUidCrash;
    }
    var trace := Serve(Config(resolved.uid, dryRun), lines, answers);
    return Served(trace);
  }

  /**
   * Because emptiness is tested before normalisation, a `--uid` of spaces
   * resolves to the empty UID, and then a scan line with an empty payload
   * toggles the lock.
   */
  lemma SpacesOnlyUidMatchesEmptyScan(flag: string, d: Desktop)
    requires flag != [] && forall i :: 0 <= i < |flag| ==> flag[i] == ' '
    ensures LineEvents(Config(Normalize(flag), false), "Card UID:", d) == ToggleEvents(d)
  {
    SpacesOnlyUidIsEmpty(flag);
    assert Strip("Card UID:") == "Card UID:" by {
      assert !IsSpace('C') && !IsSpace(':');
    }
    assert "Card UID:" == [] + Marker + [];
    assert !Contains([] + Marker[..8], Marker);
    ScannedUidOfScanLine([], []);
    assert Strip([]) == [];
    assert Normalize([]) == [];
  }
}
