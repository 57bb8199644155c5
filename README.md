# RFID screen-unlock daemon, modelled in Dafny

This project models the access-control core of the RFID unlock daemon in
`unit-rfid2/`. The daemon reads lines from an RFID reader on a serial port.

- `rfid-unlock.py` is the mature version. When a line carries `Card UID:`,
  the daemon extracts the scanned UID and normalises it: spaces are removed
  and the text is lower-cased. It then compares the result with the
  authorised UID. A match toggles the GNOME screen lock. The daemon asks
  whether the screen saver is active. If it is, the daemon wakes the display,
  finds the active graphical login session, unlocks it and resets the idle
  timer. If it is not, the daemon locks the screen. A mismatch is logged as
  "Access Denied".
- `desktop-unlock.py` is the earlier draft. It cuts the UID at colons and
  compares it, exactly as written, with a built-in constant. A match unlocks
  the current session.

Every external command is an `Event` in a trace (`Session.Event`). What a
command prints, or the fact that it raised, is a `Reply`. The replies the
desktop gives while one line is handled form a `Desktop` record. A loop takes
one `Desktop` per line, as the oracle `answers: nat -> Desktop`.

The modules follow the program:

- `Text` holds the Python string operations the code uses, over `string`:
  `in`, `split(sep)[1]`, `split()[0]`, `strip()`, `lower()` and
  `replace(" ", "")`. Each is a function, and lemmas relate it to an
  independent description (first occurrence, whitespace cut from both ends,
  and so on).
- `Uid` holds UID normalisation.
- `Session` holds the events, the lock-state test and the session search.
- `Secret` holds the UID file and the precedence of the UID sources.
- `Daemon` holds the loop body and the loop of the mature version, and the
  start of `main`.
- `Draft` holds the draft's loop and the lemmas that compare the draft with
  the mature version.

The loops are methods: `ActiveGraphicalSession`, `Serve` and `DraftServe`.
Each is proved equal to a specification function, and the lemmas prove the
properties of those functions. The loop bodies `UnlockScreen`, `HandleLine`
and `DraftHandleLine` are methods proved equal to their functions in the same
way. `ResolveAuthorized`, the fall-through assignment of the UID sources, is
a method whose contract gives its result case by case.

Some behaviours of `rfid-unlock.py` are easy to miss when reading it:

- The UID file is read whole and stripped; it is not cut to its first line
  (:154).
- When no source gives a UID, the missing value is only logged (:185-186),
  and `uid.replace` then runs on `None` at :189, so the program stops before
  the serial port is opened (`Daemon.Run` returns `NoUidCrash`).
- Normalisation removes only the space character (:189, :207). Tabs and other
  whitespace inside the UID stay (`Uid.NormalizeKeeps`).
- In a dry run the line is read and then skipped before the marker is looked
  for (:201-202).
- `split("Card UID:")[1]` stops at a second marker (:206).
- Emptiness is tested on the raw value (:178-183), so a `--uid` made only of
  spaces counts as given. It normalises to the empty UID, which an empty scan
  then matches (`Daemon.SpacesOnlyUidMatchesEmptyScan`).

## Model

| member | source | states |
|---|---|---|
| Text.IndexOfFinds | unit-rfid2/rfid-unlock.py:204 | the search for `t` in `s` returns the first position where `t` occurs, and `None` only when `t` occurs nowhere |
| Text.ContainsOccurs | unit-rfid2/rfid-unlock.py:204 | `t in s` holds exactly when `t` occurs at some position of `s` |
| Text.SplitSecondIsField | unit-rfid2/rfid-unlock.py:206 | `s.split(sep)[1]` is the text right after the first `sep`; it runs to the end of `s` or to the next `sep`, holds no `sep`, and no `sep` of `s` starts inside it |
| Text.Lower | unit-rfid2/rfid-unlock.py:104 | `lower()` keeps the length and lower-cases each character on its own: A-Z become a-z and every other character stays |
| Text.SplitSecond | unit-rfid2/rfid-unlock.py:206 | `split(sep)[1]` exists exactly when `sep` occurs in the text |
| Text.IndexOfFirst | unit-rfid2/rfid-unlock.py:204 | the search returns a position where `t` occurs whenever `t` occurs nowhere before it |
| Text.StripTrims | unit-rfid2/rfid-unlock.py:198 | `strip()` gives the empty text exactly for a blank input; otherwise the result begins and ends with non-whitespace and stands in the input with only whitespace before and after it |
| Text.FirstWordSpec | unit-rfid2/rfid-unlock.py:36-38 | `line.split()` is empty exactly for a blank line; otherwise its first element is a non-empty run of non-whitespace that follows the leading whitespace and ends at whitespace or at the end of the line |
| Text.RemoveSpacesKeeps | unit-rfid2/rfid-unlock.py:189 | `replace(" ", "")` drops every space and keeps every other character, as often as it occurs |
| Text.StripKeeps | unit-rfid2/rfid-unlock.py:206 | a text that neither begins nor ends with whitespace is unchanged by `strip()` |
| Uid.Normalize | unit-rfid2/rfid-unlock.py:189 | the normalised UID holds no space and no upper-case letter, and is never longer than the input |
| Uid.NormalizeIdempotent | unit-rfid2/rfid-unlock.py:207 | normalising twice gives the same result as normalising once |
| Uid.NormalizeConcat | unit-rfid2/rfid-unlock.py:207 | normalisation works character by character: it distributes over concatenation |
| Uid.NormalizeIgnoresSpace | unit-rfid2/rfid-unlock.py:207 | inserting a space anywhere in a UID does not change its normal form |
| Uid.NormalizeIgnoresCase | unit-rfid2/rfid-unlock.py:207 | lower-casing any one character of a UID does not change its normal form |
| Uid.NormalizeKeeps | unit-rfid2/rfid-unlock.py:189 | every character other than the space and the upper-case letters, such as a tab, survives normalisation |
| Uid.NormalizeSpaced | unit-rfid2/rfid-unlock.py:207 | a UID written as four space-separated octets normalises to the four octets normalised and joined |
| Uid.SpacedOctets | unit-rfid2/rfid-unlock.py:207 | a UID written as four space-separated two-character octets normalises to the eight characters lower-cased, in order |
| Uid.NormalizeExample | unit-rfid2/desktop-unlock.py:12 | "EC A6 0D 48", "ec a6 0d 48" and "ecA60d48" all normalise to "eca60d48" |
| Session.ScreenLocked | unit-rfid2/rfid-unlock.py:93-107 | `is_screen_locked`: a locked answer comes only from a query that answered with at least the four characters of "true" |
| Session.ScreenLockedMeans | unit-rfid2/rfid-unlock.py:97-107 | the screen counts as locked exactly when the query answered and its lower-cased output contains "true"; a query that raises counts as unlocked |
| Session.ScreenLockedIgnoresCase | unit-rfid2/rfid-unlock.py:104 | the lock test gives the same answer on an output and on its lower-cased form |
| Session.LockedWhenTrue | unit-rfid2/rfid-unlock.py:104 | any output with "true" in it, such as "(true,)", counts as locked |
| Session.UnlockedExample | unit-rfid2/rfid-unlock.py:104 | the output "(false,)" counts as unlocked |
| Session.IsActiveGraphical | unit-rfid2/rfid-unlock.py:42-45 | a session qualifies only when its `show-session` output names type wayland or x11 and holds "Active=yes" (so it is at least that long) |
| Session.ProbeLines | unit-rfid2/rfid-unlock.py:35-46 | the search over the listing makes only `show-session` calls, at most one per listed line |
| Session.DiscoverSession | unit-rfid2/rfid-unlock.py:32-49 | session discovery starts with `list-sessions` and then makes only probing calls |
| Session.ProbeLinesFindsFirst | unit-rfid2/rfid-unlock.py:35-46 | discovery returns the session of the first line whose probe qualifies or raises: its id if it is an active Wayland or X11 session, "auto" if the probe raised; blank lines and sessions that do not qualify are skipped |
| Session.ProbeLinesSkips | unit-rfid2/rfid-unlock.py:35-46 | a listed line whose probe neither qualifies nor raises does not change the session found |
| Session.ProbeLinesFallsBack | unit-rfid2/rfid-unlock.py:47-49 | when no listed session qualifies and no probe raises, discovery returns "auto" |
| Session.ActiveGraphicalSession | unit-rfid2/rfid-unlock.py:30-49 | the loop with early return gives the id and the calls of the discovery function, including "auto" when the listing raises |
| Secret.StrippedUid | unit-rfid2/rfid-unlock.py:154-157 | the stripped, normalised file text is empty exactly when the file is blank; otherwise it has no whitespace at either end, and it is already in normal form |
| Secret.FileUid | unit-rfid2/rfid-unlock.py:139-161 | the file gives no UID exactly when it is missing, unreadable or blank; any UID it gives is non-empty and in normal form |
| Secret.Given | unit-rfid2/rfid-unlock.py:179-185 | the negation of `not uid or len(uid) == 0`, applied to the raw value: only a present value can be given, and a non-empty value counts as given even when it normalises to the empty UID |
| Secret.ResolveAuthorized | unit-rfid2/rfid-unlock.py:178-189 | `--uid` wins when non-empty, then `NFC_UID` when set and non-empty, then the file; with none of them the UID is unspecified; the result is in normal form |
| Secret.SpacesOnlyUidIsEmpty | unit-rfid2/rfid-unlock.py:178-189 | a value made only of spaces passes the emptiness test and normalises to the empty UID |
| Daemon.ScannedUid | unit-rfid2/rfid-unlock.py:204-206 | a scanned UID is extracted exactly when the line carries "Card UID:" |
| Daemon.ScannedUidIsField | unit-rfid2/rfid-unlock.py:206 | the raw UID is the stripped field after the first marker, up to any next marker; it holds no marker and has no whitespace at either end |
| Daemon.StripKeepsAbsent | unit-rfid2/rfid-unlock.py:206 | stripping a field never creates a marker that was not in it |
| Daemon.ScannedUidOfScanLine | unit-rfid2/rfid-unlock.py:204-206 | on a line made of a prefix, the marker and a payload without a marker, where no marker starts inside the prefix (a timestamp such as "12:00:01 " is allowed), the raw UID is the stripped payload |
| Daemon.UnlockEvents | unit-rfid2/rfid-unlock.py:113-137 | the unlock sequence is, in order: wake, the discovery calls, unlock of the discovered session, idle reset |
| Daemon.UnlockStepsOnce | unit-rfid2/rfid-unlock.py:113-137 | wake, the unlock of the discovered session and the idle reset each happen exactly once; there is no other unlock, no lock, no lock query and no denial |
| Daemon.UnlockScreen | unit-rfid2/rfid-unlock.py:113-137 | the step-by-step unlock runs every step whatever exit status the earlier ones had, and produces the unlock sequence |
| Daemon.ToggleEvents | unit-rfid2/rfid-unlock.py:210-214 | a toggle queries the lock state first; then it runs the unlock sequence if the screen is locked, and a single lock otherwise |
| Daemon.ToggleOutcome | unit-rfid2/rfid-unlock.py:210-214 | a toggle makes exactly one lock query and no denial; when locked it wakes and resets once and never locks; when unlocked it locks once and makes no unlock step |
| Daemon.ScanLineOutcome | unit-rfid2/rfid-unlock.py:204-216 | outside a dry run, a scan line (any prefix in which no marker starts, the marker, a payload without a marker) toggles exactly when its normalised payload is the authorised UID, and is denied otherwise |
| Daemon.NonScanIsIgnored | unit-rfid2/rfid-unlock.py:201-204 | a line without the marker, or any line in a dry run, makes no call and logs no denial |
| Daemon.MismatchIsDenied | unit-rfid2/rfid-unlock.py:215-216 | a scan that does not match makes no session call and logs exactly one denial |
| Daemon.LineQueries | unit-rfid2/rfid-unlock.py:210-211 | a line leads to one lock query if it matches, and to none otherwise |
| Daemon.LineEvents | unit-rfid2/rfid-unlock.py:198-216 | a line yields nothing, a single denial, or the toggle's events; it yields something exactly when the daemon is not running dry and the stripped line carries the marker |
| Daemon.Matches | unit-rfid2/rfid-unlock.py:204-210 | a line matches only outside a dry run and only when its stripped text carries the marker |
| Daemon.HandleLine | unit-rfid2/rfid-unlock.py:198-216 | one pass of the loop body produces the line's events |
| Daemon.ServeEvents | unit-rfid2/rfid-unlock.py:196-219 | the loop's events over the lines read; outside a dry run, when every line is a scan, there is at least one event per line |
| Daemon.DryRunIsSilent | unit-rfid2/rfid-unlock.py:201-202 | in a dry run the loop makes no call and logs no denial, whatever it reads |
| Daemon.NoMatchNoSessionCall | unit-rfid2/rfid-unlock.py:196-216 | when no line matches, the trace holds only denials, at most one per line |
| Daemon.QueriesFollowMatches | unit-rfid2/rfid-unlock.py:196-216 | the trace holds exactly one lock query per matching line |
| Daemon.Serve | unit-rfid2/rfid-unlock.py:196-219 | the serving loop produces the events of the lines in the order they were read |
| Daemon.Run | unit-rfid2/rfid-unlock.py:178-216 | the program stops before serving exactly when no source gives a UID; otherwise it serves with the UID of the source that wins |
| Daemon.SpacesOnlyUidMatchesEmptyScan | unit-rfid2/rfid-unlock.py:178-210 | with a `--uid` of spaces, the bare line "Card UID:" matches and toggles the lock |
| Draft.MarkerHasColon | unit-rfid2/desktop-unlock.py:34-36 | a line with the marker has a colon, so `split(":")[1]` exists |
| Draft.DraftScan | unit-rfid2/desktop-unlock.py:34-36 | the draft scans a line exactly when it carries "Card UID:" |
| Draft.DraftLineOutcome | unit-rfid2/desktop-unlock.py:34-42 | a line unlocks exactly when its scanned text equals "EC A6 0D 48" as written; any other scan is denied; a line without the marker does nothing |
| Draft.DraftLineEvents | unit-rfid2/desktop-unlock.py:31-42 | a line yields nothing, one unlock of the current session, or one denial; it yields something exactly when the stripped line carries the marker |
| Draft.DraftServeEvents | unit-rfid2/desktop-unlock.py:28-42 | the draft's events over the lines read, at most one per line |
| Draft.DraftAnswersEveryScan | unit-rfid2/desktop-unlock.py:28-42 | when every line read is a scan, the draft answers each with exactly one event |
| Draft.DraftNeverLocks | unit-rfid2/desktop-unlock.py:28-42 | the draft only unlocks the current session or reports a denial, at most once per line; it never queries the lock state and never locks |
| Draft.DraftHandleLine | unit-rfid2/desktop-unlock.py:31-42 | one pass of the draft's loop body produces the line's events |
| Draft.DraftServe | unit-rfid2/desktop-unlock.py:28-42 | the draft's loop produces the events of the lines in the order they were read |
| Draft.DraftAgreesWithoutColons | unit-rfid2/desktop-unlock.py:36 | when neither the prefix nor the payload holds a colon, the draft and the mature version extract the same stripped payload |
| Draft.DraftReadsPrefix | unit-rfid2/desktop-unlock.py:36 | with a colon in the prefix (`a:b` before the marker), the draft reads `b` followed by "Card UID" instead of the card's UID |
| Draft.DraftIsCaseSensitive | unit-rfid2/desktop-unlock.py:31-42 | the draft denies any line whose stripped text is a colon-free prefix, the marker and "ec a6 0d 48", the built-in card in lower case (with a colon in the prefix the draft reads another field, see `Draft.DraftReadsPrefix`) |
| Draft.DaemonIgnoresCase | unit-rfid2/rfid-unlock.py:198-214 | the mature version, authorised for "EC A6 0D 48", toggles on any line whose stripped text is a prefix in which no marker starts (colons and timestamps allowed), the marker and "ec a6 0d 48" |
| Draft.TimestampPrefix | unit-rfid2/rfid-unlock.py:204-206 | a timestamp prefix such as "12:00:01 " holds no start of a marker, so the mature version reads the UID after it |

## Left out

- Serial I/O: opening the port, polling `in_waiting`, `readline`, UTF-8 decoding (with `errors='ignore'` in the mature version and strict in the draft), the 0.1 s sleep and `ser.close()`. Lines reach the model already read and decoded, as a `seq<string>`.
- Running `gdbus`, `loginctl` and `xdg-screensaver`. Each call is an event. The output of `check_output` and its exceptions come from the `Desktop` replies. Exit statuses are ignored, because `subprocess.run` does not raise on them; `check_output` raising is `Raised`.
- Effects of earlier calls on later replies. The desktop's answers for line `i` are an arbitrary `answers(i)`.
- `output.splitlines()` of the session listing. The listing reply is already a sequence of lines.
- `setup_env` and `auto_set_display`. Setting `XDG_RUNTIME_DIR`, `DBUS_SESSION_BUS_ADDRESS` and `DISPLAY` depends on `os.getuid`, `pwd`, a directory listing and the process environment.
- Logging and `--debug`, except the "Access Denied" line, which is the `AccessDenied` event. This includes the draft's `print` calls.
- `argparse`: `--port` and `--baud`. `--uid` and `--dry-run` are parameters of `Run`.
- Daemon.UnlockScreen, Daemon.ToggleEvents: every `subprocess.run` launch succeeds. A missing or unexecutable `gdbus` (:117, :132), `loginctl` (:128) or `xdg-screensaver` (:111) raises `OSError`. The rest of `unlock_screen` is then skipped, and the catch-all handler at :223-224 ends the daemon; the model keeps serving.
- Draft.DraftServe: the draft's strict `decode('utf-8')` (desktop-unlock.py:31) raising on a malformed line ends its loop through the handler at desktop-unlock.py:46-47; the model decodes every line.
- The `KeyboardInterrupt` and catch-all `except` handlers around the loops. The loops are modelled over a finite sequence of lines.
- `lower()` beyond ASCII. Only A-Z are lower-cased; UIDs are hex text.
- Text.IndexOf: the search is defined for every `t`, and `Contains(s, "")` holds, as in Python. `split` with an empty separator (a ValueError in Python) is excluded by a precondition; the code never uses one.
