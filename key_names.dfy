/**
 * Header normalisation shared by the dashboard and the "Are We Alone" page
 * (`normalizeKeyName`): drop byte-order marks, turn no-break spaces into
 * spaces, lower-case, remove white space, and keep only letters, digits and
 * `_`. Letters are the ASCII letters and the Arabic letters U+0621..U+064A;
 * digits are the ASCII and Arabic-Indic digits.
 */
module KeyNames {
  import opened JsValues

  predicate IsLetter(c: char) {
    IsLowerAscii(c) || IsUpperAscii(c) || ('\U{0621}' <= c <= '\U{064A}')
  }

  predicate IsNumeral(c: char) {
    IsDigit(c) || ('\U{0660}' <= c <= '\U{0669}')
  }

  /** `[\p{L}\p{N}_]` */
  predicate IsWordChar(c: char) {
    IsLetter(c) || IsNumeral(c) || c == '_'
  }

  /** A character that can appear in a normalised key. */
  predicate IsKeyChar(c: char) {
    IsWordChar(c) && !IsUpperAscii(c)
  }

  predicate IsKeyName(s: string) {
    forall i :: 0 <= i < |s| ==> IsKeyChar(s[i])
  }

  /** `s.replace(/c/g, "")` */
  function RemoveAll(s: string, c: char): (r: string)
    ensures forall i :: 0 <= i < |r| ==> r[i] != c
    ensures (forall i :: 0 <= i < |s| ==> s[i] != c) ==> r == s
  {
    if s == [] then []
    else if s[0] == c then RemoveAll(s[1..], c)
    else [s[0]] + RemoveAll(s[1..], c)
  }

  /** `s.replace(/a/g, b)` for single characters */
  function ReplaceAll(s: string, a: char, b: char): (r: string)
    ensures |r| == |s|
    ensures forall i :: 0 <= i < |s| ==> r[i] == (if s[i] == a then b else s[i])
  {
    if s == [] then [] else [if s[0] == a then b else s[0]] + ReplaceAll(s[1..], a, b)
  }

  /** `s.replace(/\s+/g, "")` */
  function RemoveSpaces(s: string): (r: string)
    ensures forall i :: 0 <= i < |r| ==> !IsJsSpace(r[i])
    ensures |r| <= |s|
  {
    if s == [] then []
    else if IsJsSpace(s[0]) then RemoveSpaces(s[1..])
    else [s[0]] + RemoveSpaces(s[1..])
  }

  /** Removing white space keeps every other character, in order: it works piece by piece, one character at a time. */
  lemma {:induction false} RemoveSpacesKeepsOthers(x: string, y: string, c: char)
    ensures RemoveSpaces(x + y) == RemoveSpaces(x) + RemoveSpaces(y)
    ensures RemoveSpaces([c]) == if IsJsSpace(c) then [] else [c]
    decreases |x|
  {
    if x != [] {
      assert (x + y)[0] == x[0] && (x + y)[1..] == x[1..] + y;
      RemoveSpacesKeepsOthers(x[1..], y, c);
    } else {
      assert x + y == y;
    }
  }

  /** `s.replace(/[^\p{L}\p{N}_]/gu, "")` */
  function KeepWordChars(s: string): (r: string)
    ensures forall i :: 0 <= i < |r| ==> IsWordChar(r[i])
  {
    if s == [] then []
    else if IsWordChar(s[0]) then [s[0]] + KeepWordChars(s[1..])
    else KeepWordChars(s[1..])
  }

  /** Dropping the other characters keeps every word character, in order: piece by piece, one character at a time. */
  lemma {:induction false} KeepWordCharsKeepsWords(x: string, y: string, c: char)
    ensures KeepWordChars(x + y) == KeepWordChars(x) + KeepWordChars(y)
    ensures KeepWordChars([c]) == if IsWordChar(c) then [c] else []
    decreases |x|
  {
    if x != [] {
      assert (x + y)[0] == x[0] && (x + y)[1..] == x[1..] + y;
      KeepWordCharsKeepsWords(x[1..], y, c);
    } else {
      assert x + y == y;
    }
  }

  /**
   * `normalizeKeyName` (app.js and alone.js). Canonical composition (NFKC)
   * is the identity on the characters this model knows.
   */
  function NormalizeKeyName(s: string): string {
    KeepWordChars(RemoveSpaces(ToLower(ReplaceAll(RemoveAll(s, '\U{FEFF}'), '\U{00A0}', ' '))))
  }

  // ---------------------------------------------------------------------------

  lemma {:induction false} KeepWordCharsKeepsKeyChars(s: string)
    requires forall i :: 0 <= i < |s| ==> !IsUpperAscii(s[i])
    ensures IsKeyName(KeepWordChars(s))
  {
    if s != [] {
      KeepWordCharsKeepsKeyChars(s[1..]);
    }
  }

  lemma {:induction false} RemoveSpacesKeepsLower(s: string)
    requires forall i :: 0 <= i < |s| ==> !IsUpperAscii(s[i])
    ensures forall i :: 0 <= i < |RemoveSpaces(s)| ==> !IsUpperAscii(RemoveSpaces(s)[i])
  {
    if s != [] {
      RemoveSpacesKeepsLower(s[1..]);
    }
  }

  /** A normalised key holds only lower-case letters, digits and `_`, and no white space. */
  lemma {:induction false} NormalizedIsKeyName(s: string)
    ensures IsKeyName(NormalizeKeyName(s))
    ensures forall i :: 0 <= i < |NormalizeKeyName(s)| ==> !IsJsSpace(NormalizeKeyName(s)[i])
  {
    var lowered := ToLower(ReplaceAll(RemoveAll(s, '\U{FEFF}'), '\U{00A0}', ' '));
    RemoveSpacesKeepsLower(lowered);
    KeepWordCharsKeepsKeyChars(RemoveSpaces(lowered));
    var r := NormalizeKeyName(s);
    forall i | 0 <= i < |r| ensures !IsJsSpace(r[i]) {
      assert IsKeyChar(r[i]);
    }
  }

  lemma {:induction false} IdentityOnKeyName(s: string)
    requires IsKeyName(s)
    ensures ToLower(s) == s && RemoveSpaces(s) == s && KeepWordChars(s) == s
  {
    if s != [] {
      assert IsKeyChar(s[0]);
      IdentityOnKeyName(s[1..]);
    }
  }

  /** Normalising a header twice is the same as normalising it once. */
  lemma {:induction false} NormalizeIdempotent(s: string)
    ensures NormalizeKeyName(NormalizeKeyName(s)) == NormalizeKeyName(s)
  {
    var r := NormalizeKeyName(s);
    NormalizedIsKeyName(s);
    assert forall i :: 0 <= i < |r| ==> r[i] != '\U{FEFF}' && r[i] != '\U{00A0}' by {
      forall i | 0 <= i < |r| ensures r[i] != '\U{FEFF}' && r[i] != '\U{00A0}' {
        assert IsKeyChar(r[i]);
      }
    }
    assert RemoveAll(r, '\U{FEFF}') == r;
    assert ReplaceAll(r, '\U{00A0}', ' ') == r;
    IdentityOnKeyName(r);
  }
}
