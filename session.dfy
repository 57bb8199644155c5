/**
 * The desktop side of the daemon: the external commands it runs, recorded as
 * a trace of events, the answers the desktop gives to them, the lock-state
 * query and the search for the active graphical login session
 * (unit-rfid2/rfid-unlock.py:30-49, :93-137).
 */
module Session {
  import opened Text

  /** What an external command gives back: its decoded output, or an exception. */
  datatype Reply<T> = Answered(out: T) | Raised

  /** One external call made by the daemon, or the one log line the model keeps. */
  datatype Event =
    | QueryLocked               // gdbus ... org.gnome.ScreenSaver.GetActive
    | Wake                      // gdbus ... org.gnome.ScreenSaver.SetActive true
    | ListSessions              // loginctl list-sessions --no-legend
    | ShowSession(id: string)   // loginctl show-session <id>
    | UnlockSession(id: string) // loginctl unlock-session <id>
    | UnlockCurrent             // loginctl unlock-session (no session argument)
    | ResetIdle                 // gdbus ... org.gnome.Mutter.IdleMonitor.ResetIdletime
    | Lock                      // xdg-screensaver lock
    | AccessDenied              // the "Access Denied" log line

  /** A call made while looking for the session to unlock. */
  predicate IsProbe(e: Event) {
    e.ListSessions? || e.ShowSession?
  }

  /**
   * How the desktop answers the queries the daemon makes while it handles one
   * line: the lock-state query, the session listing (already split into its
   * lines) and `show-session` for each session id.
   */
  datatype Desktop = Desktop(
    screenSaver: Reply<string>,
    sessions: Reply<seq<string>>,
    sessionInfo: string -> Reply<string>)

  // ---------------------------------------------------------------------------
  // Lock state (is_screen_locked)

  /** is_screen_locked: `'true' in output.lower()`, and `False` when the query raises. */
  function ScreenLocked(reply: Reply<string>): (r: bool)
    ensures r ==> reply.Answered? && |reply.out| >= 4
  {
    match reply
    case Answered(out) => Contains(Lower(out), "true")
    case Raised => false
  }

  /**
   * The screen counts as locked exactly when the query answered and its
   * lower-cased output contains "true"; a query that raises counts as unlocked.
   */
  lemma ScreenLockedMeans(reply: Reply<string>)
    ensures ScreenLocked(reply) ==> reply.Answered? && exists k: nat :: OccursAt(Lower(reply.out), "true", k)
    ensures reply.Answered? && (exists k: nat :: OccursAt(Lower(reply.out), "true", k)) ==> ScreenLocked(reply)
  {
    if reply.Answered? {
      ContainsOccurs(Lower(reply.out), "true");
    }
  }

  lemma {:induction false} LowerIdempotent(s: string)
    ensures Lower(Lower(s)) == Lower(s)
  {
    assert forall i :: 0 <= i < |s| ==> LowerChar(LowerChar(s[i])) == LowerChar(s[i]);
  }

  /** The test does not depend on the case of the output. */
  lemma ScreenLockedIgnoresCase(out: string)
    ensures ScreenLocked(Answered(out)) == ScreenLocked(Answered(Lower(out)))
  {
    LowerIdempotent(out);
  }

  /** Any output with "true" in it, such as gdbus's "(true,)" for an active screen saver, counts as locked. */
  lemma LockedWhenTrue(p: string, q: string)
    ensures ScreenLocked(Answered(p + "true" + q))
  {
    var out := p + "true" + q;
    TrueSurvivesLower(p, q);
    ScreenLockedMeans(Answered(out));
  }

  lemma TrueSurvivesLower(p: string, q: string)
    ensures OccursAt(Lower(p + "true" + q), "true", |p|)
  {
    var out := p + "true" + q;
    forall i | 0 <= i < 4 ensures Lower(out)[|p| + i] == "true"[i] {
      assert out[|p| + i] == "true"[i];
    }
    assert Lower(out)[|p|..|p| + 4] == "true";
  }

  /** gdbus prints "(false,)" while the screen saver is not active, which counts as unlocked. */
  lemma UnlockedExample(out: string)
    requires out == "(false,)"
    ensures !ScreenLocked(Answered(out))
  {
    LowerNoop(out);
    forall k: nat ensures !OccursAt(out, "true", k) {
      if k + 4 <= |out| {
        assert out[k..k + 4][1] == out[k + 1];
      }
    }
    ScreenLockedMeans(Answered(out));
  }

  // ---------------------------------------------------------------------------
  // Session discovery (get_active_graphical_session)

  /** `show-session` output describing a graphical (Wayland or X11) session that is active. */
  predicate IsActiveGraphical(info: string)
    ensures IsActiveGraphical(info) ==> |info| >= |"Active=yes"|
  {
    (Contains(info, "Type=wayland") || Contains(info, "Type=x11")) && Contains(info, "Active=yes")
  }

  /** The session id the search settles on and the calls it made to get there. */
  datatype Discovery = Discovery(id: string, calls: seq<Event>)

  /**
   * The search over the lines of the listing: blank lines are skipped, each
   * other line's first word is probed with `show-session`; the first active
   * graphical session wins, and a probe that raises ends the search with "auto".
   */
  function ProbeLines(lines: seq<string>, info: string -> Reply<string>): (r: Discovery)
    ensures forall e :: e in r.calls ==> e.ShowSession?
    ensures |r.calls| <= |lines|
  {
    if lines == [] then Discovery("auto", [])
    else
      match FirstWord(lines[0])
      case None => ProbeLines(lines[1..], info)
      case Some(id) =>
        match info(id)
        case Raised => Discovery("auto", [ShowSession(id)])
        case Answered(text) =>
          if IsActiveGraphical(text) then Discovery(id, [ShowSession(id)])
          else
            var rest := ProbeLines(lines[1..], info);
            Discovery(rest.id, [ShowSession(id)] + rest.calls)
  }

  /** The whole search: list the sessions, then probe them; a listing that raises gives "auto". */
  function DiscoverSession(listing: Reply<seq<string>>, info: string -> Reply<string>): (r: Discovery)
    ensures r.calls != [] && r.calls[0] == ListSessions
    ensures forall e :: e in r.calls ==> IsProbe(e)
  {
    match listing
    case Raised => Discovery("auto", [ListSessions])
    case Answered(lines) =>
      var p := ProbeLines(lines, info);
      Discovery(p.id, [ListSessions] + p.calls)
  }

  /** Line `i` of the listing names a session that `show-session` reports active and graphical. */
  predicate Qualifies(lines: seq<string>, info: string -> Reply<string>, i: nat)
    requires i < |lines|
  {
    FirstWord(lines[i]).Some?
    && info(FirstWord(lines[i]).value).Answered?
    && IsActiveGraphical(info(FirstWord(lines[i]).value).out)
  }

  /** Probing the session named on line `i` raises. */
  predicate ProbeFails(lines: seq<string>, info: string -> Reply<string>, i: nat)
    requires i < |lines|
  {
    FirstWord(lines[i]).Some? && info(FirstWord(lines[i]).value).Raised?
  }

  /** Line `i` is the first line whose probe settles the search (it qualifies, or it raises). */
  predicate Decisive(lines: seq<string>, info: string -> Reply<string>, i: nat)
    requires i < |lines|
  {
    && (Qualifies(lines, info, i) || ProbeFails(lines, info, i))
    && forall j: nat :: j < i ==> !Qualifies(lines, info, j) && !ProbeFails(lines, info, j)
  }

  /** A line whose probe neither qualifies nor raises leaves the outcome to the lines after it. */
  lemma ProbeLinesSkips(lines: seq<string>, info: string -> Reply<string>)
    requires lines != [] && !Qualifies(lines, info, 0) && !ProbeFails(lines, info, 0)
    ensures ProbeLines(lines, info).id == ProbeLines(lines[1..], info).id
  {
  }

  /**
   * The search settles on line `i`, the first that qualifies or raises: it
   * returns the session named there if it qualifies, and "auto" if it raised.
   */
  lemma {:induction false} ProbeLinesFindsFirst(lines: seq<string>, info: string -> Reply<string>, i: nat)
    requires i < |lines| && Decisive(lines, info, i)
    ensures ProbeLines(lines, info).id
      == if Qualifies(lines, info, i) then FirstWord(lines[i]).value else "auto"
  {
    if i > 0 {
      assert !Qualifies(lines, info, 0) && !ProbeFails(lines, info, 0);
      ProbeLinesSkips(lines, info);
      var tail := lines[1..];
      assert tail[i - 1] == lines[i];
      forall j: nat | j < i - 1
        ensures !Qualifies(tail, info, j) && !ProbeFails(tail, info, j)
      {
        assert tail[j] == lines[j + 1];
        assert !Qualifies(lines, info, j + 1) && !ProbeFails(lines, info, j + 1);
      }
      assert Qualifies(tail, info, i - 1) == Qualifies(lines, info, i);
      ProbeLinesFindsFirst(tail, info, i - 1);
    }
  }

  /** When no listed session qualifies and no probe raises, the search returns "auto". */
  lemma {:induction false} ProbeLinesFallsBack(lines: seq<string>, info: string -> Reply<string>)
    requires forall i: nat :: i < |lines| ==> !Qualifies(lines, info, i) && !ProbeFails(lines, info, i)
    ensures ProbeLines(lines, info).id == "auto"
  {
    if lines != [] {
      ProbeLinesSkips(lines, info);
      var tail := lines[1..];
      forall j: nat | j < |tail|
        ensures !Qualifies(tail, info, j) && !ProbeFails(tail, info, j)
      {
        assert tail[j] == lines[j + 1];
        assert !Qualifies(lines, info, j + 1) && !ProbeFails(lines, info, j + 1);
      }
      ProbeLinesFallsBack(tail, info);
    }
  }

  /**
   * get_active_graphical_session: lists the sessions and probes them in order,
   * returning early on the first active graphical one; any exception, or no
   * such session, gives "auto".
   */
  method ActiveGraphicalSession(listing: Reply<seq<string>>, info: string -> Reply<string>)
    returns (id: string, calls: seq<Event>)
    ensures Discovery(id, calls) == DiscoverSession(listing, info)
  {
    calls := [ListSessions];
    if listing.Raised? {
      return "auto", calls;
    }
    var lines := listing.out;
    var i := 0;
    while i < |lines|
      invariant 0 <= i <= |lines|
      invariant DiscoverSession(listing, info)
        == Discovery(ProbeLines(lines[i..], info).id, calls + ProbeLines(lines[i..], info).calls)
    {
      ghost var rest := lines[i..];
      assert rest[0] == lines[i] && rest[1..] == lines[i + 1..];
      var word := FirstWord(lines[i]);
      if word.Some? {
        var sid := word.value;
        var reply := info(sid);
        if reply.Raised? {
          assert ProbeLines(rest, info) == Discovery("auto", [ShowSession(sid)]);
          return "auto", calls + [ShowSession(sid)];
        }
        if IsActiveGraphical(reply.out) {
          assert ProbeLines(rest, info) == Discovery(sid, [ShowSession(sid)]);
          return sid, calls + [ShowSession(sid)];
        }
        ghost var next := ProbeLines(lines[i + 1..], info);
        assert ProbeLines(rest, info) == Discovery(next.id, [ShowSession(sid)] + next.calls);
        assert calls + ([ShowSession(sid)] + next.calls) == (calls + [ShowSession(sid)]) + next.calls;
        calls := calls + [ShowSession(sid)];
      }
      i := i + 1;
    }
    assert lines[i..] == [];
    return "auto", calls;
  }
}
