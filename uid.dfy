/**
 * Card-UID normalisation, `s.replace(" ", "").lower()`, which the daemon
 * applies both to the authorised UID (unit-rfid2/rfid-unlock.py:189, and to
 * the configuration file at :154) and to every scanned UID (:207), so that
 * "EC A6 0D 48" and "ec a6 0d 48" compare equal.
 */
module Uid {
  import opened Text

  /** The canonical form of a UID: spaces removed, ASCII letters lower-cased. */
  function Normalize(s: string): (r: string)
    ensures ' ' !in r
    ensures forall i :: 0 <= i < |r| ==> !IsUpper(r[i])
    ensures |r| <= |s|
  {
    Lower(RemoveSpaces(s))
  }

  lemma {:induction false} LowerConcat(a: string, b: string)
    ensures Lower(a + b) == Lower(a) + Lower(b)
  {
    if a != [] {
      assert (a + b)[1..] == a[1..] + b;
      LowerConcat(a[1..], b);
    }
  }

  lemma {:induction false} RemoveSpacesConcat(a: string, b: string)
    ensures RemoveSpaces(a + b) == RemoveSpaces(a) + RemoveSpaces(b)
  {
    if a != [] {
      assert (a + b)[0] == a[0] && (a + b)[1..] == a[1..] + b;
      RemoveSpacesConcat(a[1..], b);
      if a[0] == ' ' {
        assert RemoveSpaces(a + b) == RemoveSpaces(a[1..] + b);
        assert RemoveSpaces(a) == RemoveSpaces(a[1..]);
      } else {
        assert RemoveSpaces(a + b) == [a[0]] + RemoveSpaces(a[1..] + b);
        assert RemoveSpaces(a) == [a[0]] + RemoveSpaces(a[1..]);
      }
    } else {
      assert a + b == b;
    }
  }

  /** Normalisation works character by character, so it distributes over concatenation. */
  lemma NormalizeConcat(a: string, b: string)
    ensures Normalize(a + b) == Normalize(a) + Normalize(b)
  {
    RemoveSpacesConcat(a, b);
    LowerConcat(RemoveSpaces(a), RemoveSpaces(b));
  }

  /** A string without spaces is left alone by `replace(" ", "")`. */
  lemma {:induction false} RemoveSpacesNoop(s: string)
    requires ' ' !in s
    ensures RemoveSpaces(s) == s
  {
    if s != [] {
      assert s == [s[0]] + s[1..];
      RemoveSpacesNoop(s[1..]);
    }
  }

  /** Normalising twice is normalising once. */
  lemma NormalizeIdempotent(s: string)
    ensures Normalize(Normalize(s)) == Normalize(s)
  {
    var n := Normalize(s);
    RemoveSpacesNoop(n);
    assert Lower(n) == n;
  }

  lemma RemoveSpacesAround(a: string, b: string)
    ensures RemoveSpaces(a + " " + b) == RemoveSpaces(a) + RemoveSpaces(b)
  {
    RemoveSpacesConcat(a + " ", b);
    RemoveSpacesConcat(a, " ");
    assert RemoveSpaces(" ") == [] by {
      assert RemoveSpaces(" ") == RemoveSpaces(" "[1..]);
    }
  }

  /** A space anywhere in the text does not change the canonical form. */
  lemma NormalizeIgnoresSpace(a: string, b: string)
    ensures Normalize(a + " " + b) == Normalize(a + b)
  {
    RemoveSpacesAround(a, b);
    RemoveSpacesConcat(a, b);
  }

  /** Changing the case of any one character does not change the canonical form. */
  lemma NormalizeIgnoresCase(a: string, c: char, b: string)
    ensures Normalize(a + [c] + b) == Normalize(a + [LowerChar(c)] + b)
  {
    NormalizeConcat(a + [c], b);
    NormalizeConcat(a, [c]);
    NormalizeConcat(a + [LowerChar(c)], b);
    NormalizeConcat(a, [LowerChar(c)]);
    if c == ' ' {
      assert RemoveSpaces([c]) == RemoveSpaces([c][1..]);
    } else {
      assert RemoveSpaces([c]) == [c] + RemoveSpaces([c][1..]);
      assert RemoveSpaces([LowerChar(c)]) == [LowerChar(c)] + RemoveSpaces([LowerChar(c)][1..]);
    }
  }

  /**
   * Only the space character is removed: every other character that is not an
   * upper-case letter (a tab, a newline, a colon) survives normalisation.
   */
  lemma NormalizeKeeps(s: string, c: char)
    requires c in s && c != ' ' && !IsUpper(c)
    ensures c in Normalize(s)
  {
    var r := RemoveSpaces(s);
    RemoveSpacesKeeps(s);
    assert multiset(r)[c] == multiset(s)[c] > 0;
    assert c in r;
    var i :| 0 <= i < |r| && r[i] == c;
    assert Normalize(s)[i] == c;
  }

  /** A two-character octet without spaces normalises character by character. */
  lemma NormalizePair(x: char, y: char)
    requires x != ' ' && y != ' '
    ensures Normalize([x, y]) == [LowerChar(x), LowerChar(y)]
  {
    assert RemoveSpaces([x, y]) == [x] + RemoveSpaces([y]);
    assert RemoveSpaces([y]) == [y] + RemoveSpaces([]);
  }

  /** Removing a space that joins two texts normalises each of them. */
  lemma NormalizeSpaceJoin(x: string, y: string)
    ensures Normalize(x + " " + y) == Normalize(x) + Normalize(y)
  {
    NormalizeIgnoresSpace(x, y);
    NormalizeConcat(x, y);
  }

  /** A UID written as four space-separated octets normalises octet by octet. */
  lemma NormalizeSpaced(a: string, b: string, c: string, d: string)
    ensures Normalize(a + " " + b + " " + c + " " + d) == Normalize(a) + Normalize(b) + Normalize(c) + Normalize(d)
  {
    NormalizeSpaceJoin(a + " " + b + " " + c, d);
    NormalizeSpaceJoin(a + " " + b, c);
    NormalizeSpaceJoin(a, b);
  }

  /** A UID written as four space-separated two-character octets normalises to the octets lower-cased and joined. */
  lemma SpacedOctets(s: string, a0: char, a1: char, b0: char, b1: char, c0: char, c1: char, d0: char, d1: char)
    requires a0 != ' ' && a1 != ' ' && b0 != ' ' && b1 != ' ' && c0 != ' ' && c1 != ' ' && d0 != ' ' && d1 != ' '
    requires s == [a0, a1, ' ', b0, b1, ' ', c0, c1, ' ', d0, d1]
    ensures Normalize(s) == [LowerChar(a0), LowerChar(a1), LowerChar(b0), LowerChar(b1),
                             LowerChar(c0), LowerChar(c1), LowerChar(d0), LowerChar(d1)]
  {
    var a, b, c, d := [a0, a1], [b0, b1], [c0, c1], [d0, d1];
    assert s == a + " " + b + " " + c + " " + d;
    NormalizeSpaced(a, b, c, d);
    NormalizePair(a0, a1);
    NormalizePair(b0, b1);
    NormalizePair(c0, c1);
    NormalizePair(d0, d1);
  }

  /** ...and without spaces, in mixed case. */
  lemma CardMixed(s: string)
    requires s == "ecA60d48"
    ensures Normalize(s) == "eca60d48"
  {
    var a, b, c, d := ['e', 'c'], ['A', '6'], ['0', 'd'], ['4', '8'];
    assert s == a + b + c + d;
    NormalizeConcat(a + b + c, d);
    NormalizeConcat(a + b, c);
    NormalizeConcat(a, b);
    NormalizePair('e', 'c');
    NormalizePair('A', '6');
    NormalizePair('0', 'd');
    NormalizePair('4', '8');
  }

  /** The spellings of the same card all compare equal once normalised. */
  lemma NormalizeExample()
    ensures Normalize("EC A6 0D 48") == "eca60d48"
    ensures Normalize("ec a6 0d 48") == "eca60d48"
    ensures Normalize("ecA60d48") == "eca60d48"
  {
    SpacedOctets("EC A6 0D 48", 'E', 'C', 'A', '6', '0', 'D', '4', '8');
    SpacedOctets("ec a6 0d 48", 'e', 'c', 'a', '6', '0', 'd', '4', '8');
    CardMixed("ecA60d48");
  }
}
