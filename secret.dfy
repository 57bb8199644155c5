/**
 * Where the authorised card UID comes from (unit-rfid2/rfid-unlock.py:139-189):
 * the `--uid` flag, then the `NFC_UID` environment variable, then the file
 * `~/.nfc_uid`; the first that is non-empty wins and is normalised.
 */
module Secret {
  import opened Text
  import opened Uid

  /** The state of `~/.nfc_uid` as `get_uid_from_file` finds it. */
  datatype ConfigFile =
    | Missing              // os.path.exists is false
    | Unreadable           // open() or read() raises
    | Holds(text: string)  // the whole decoded content

  lemma {:induction false} RemoveSpacesHead(t: string)
    requires t != [] && t[0] != ' '
    ensures RemoveSpaces(t) != [] && RemoveSpaces(t)[0] == t[0]
  {
  }

  lemma RemoveSpacesLast(t: string)
    requires t != [] && t[|t| - 1] != ' '
    ensures RemoveSpaces(t) != [] && RemoveSpaces(t)[|RemoveSpaces(t)| - 1] == t[|t| - 1]
  {
    var n := |t| - 1;
    assert t == t[..n] + [t[n]];
    RemoveSpacesConcat(t[..n], [t[n]]);
    assert RemoveSpaces([t[n]]) == [t[n]] + RemoveSpaces([t[n]][1..]);
  }

  /** What normalising a stripped text gives: nothing exactly when the text is blank. */
  lemma StrippedUid(text: string)
    ensures var uid := Normalize(Strip(text));
      && (uid == [] <==> forall i :: 0 <= i < |text| ==> IsSpace(text[i]))
      && (uid != [] ==> !IsSpace(uid[0]) && !IsSpace(uid[|uid| - 1]))
      && Normalize(uid) == uid
  {
    var t := Strip(text);
    StripTrims(text);
    NormalizeIdempotent(t);
    if t != [] {
      RemoveSpacesHead(t);
      RemoveSpacesLast(t);
    }
  }

  /**
   * get_uid_from_file: the whole file, stripped, with spaces removed and
   * lower-cased; `None` when the file is missing or unreadable, or when
   * nothing but whitespace is in it.
   */
  function FileUid(f: ConfigFile): (r: Option<string>)
    ensures r.None? <==> (f.Missing? || f.Unreadable? || forall i :: 0 <= i < |f.text| ==> IsSpace(f.text[i]))
    ensures r.Some? ==> r.value != [] && Normalize(r.value) == r.value
    ensures r.Some? ==> !IsSpace(r.value[0]) && !IsSpace(r.value[|r.value| - 1])
  {
    match f
    case Missing => None
    case Unreadable => None
    case Holds(text) =>
      var uid := Normalize(Strip(text));
      StrippedUid(text);
      if uid == [] then None else Some(uid)
  }

  /** Python's truthiness test `not uid or len(uid) == 0`, negated: a value is there and is not empty. */
  predicate Given(v: Option<string>)
    ensures Given(v) ==> v.Some?
    ensures v.Some? && v.value != [] && Normalize(v.value) == [] ==> Given(v)
  {
    v.Some? && v.value != []
  }

  /**
   * The outcome of the resolution at :178-189: the normalised authorised UID,
   * or `Unspecified` when no source gave one, in which case `uid.replace` is
   * called on `None` and the program stops with an AttributeError before the
   * serial port is opened.
   */
  datatype Resolution = Authorized(uid: string) | Unspecified

  /**
   * The fall-through at :178-189. Emptiness is tested on the raw value, before
   * normalisation, so a value made only of spaces is accepted.
   */
  method ResolveAuthorized(flag: string, envUid: Option<string>, file: ConfigFile) returns (r: Resolution)
    ensures flag != [] ==> r == Authorized(Normalize(flag))
    ensures flag == [] && Given(envUid) ==> r == Authorized(Normalize(envUid.value))
    ensures flag == [] && !Given(envUid) && FileUid(file).Some? ==> r == Authorized(FileUid(file).value)
    ensures flag == [] && !Given(envUid) && FileUid(file).None? ==> r == Unspecified
    ensures r.Authorized? ==> Normalize(r.uid) == r.uid
  {
    var uid := Some(flag);
    if !Given(uid) {
      uid := envUid;
    }
    if !Given(uid) {
      uid := FileUid(file);
    }
    // A missing value is only logged ("NFC UID not speicified") at :186.
    if uid.None? {
      r := Unspecified;
    } else {
      NormalizeIdempotent(uid.value);
      r := Authorized(Normalize(uid.value));
    }
  }

  /** A `--uid` (or `NFC_UID`) made only of spaces is accepted and normalises to the empty UID. */
  lemma SpacesOnlyUidIsEmpty(v: string)
    requires v != [] && forall i :: 0 <= i < |v| ==> v[i] == ' '
    ensures Normalize(v) == []
  {
    RemoveSpacesKeeps(v);
    assert multiset(v)[' ' := 0] == multiset{} by {
      forall c | c in multiset(v) ensures c == ' ' {
        var i :| 0 <= i < |v| && v[i] == c;
      }
    }
  }
}
