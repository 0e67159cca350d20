/** `normalizeText` and the role classification of the dashboard
    (`isMed`, `isEnf`): a role is a doctor's or a nurse's when its
    normalised text contains one of a fixed set of fragments. */
module Roles {
  import opened Strings

  /** Combining diacritical marks, U+0300 to U+036F: the class the source's
      regular expression deletes after canonical decomposition. */
  predicate IsCombining(c: char)
  {
    '\U{300}' <= c <= '\U{36F}'
  }

  /** The base letter canonical decomposition (NFD) leaves of a Latin-1
      letter once its combining mark is deleted; every other character is
      its own base. Case is kept. */
  function BaseLetter(c: char): (r: char)
    ensures r == c || (r as int < 0x80 && c as int >= 0xC0)
  {
    if '\U{C0}' <= c <= '\U{C5}' then 'A'
    else if c == '\U{C7}' then 'C'
    else if '\U{C8}' <= c <= '\U{CB}' then 'E'
    else if '\U{CC}' <= c <= '\U{CF}' then 'I'
    else if c == '\U{D1}' then 'N'
    else if '\U{D2}' <= c <= '\U{D6}' then 'O'
    else if '\U{D9}' <= c <= '\U{DC}' then 'U'
    else if c == '\U{DD}' then 'Y'
    else if '\U{E0}' <= c <= '\U{E5}' then 'a'
    else if c == '\U{E7}' then 'c'
    else if '\U{E8}' <= c <= '\U{EB}' then 'e'
    else if '\U{EC}' <= c <= '\U{EF}' then 'i'
    else if c == '\U{F1}' then 'n'
    else if '\U{F2}' <= c <= '\U{F6}' then 'o'
    else if '\U{F9}' <= c <= '\U{FC}' then 'u'
    else if c == '\U{FD}' || c == '\U{FF}' then 'y'
    else c
  }

  /** A character `normalizeText` can produce: lower case, no diacritic,
      not a combining mark. */
  predicate IsNormal(c: char)
  {
    !IsCombining(c) && !IsUpper(c) && BaseLetter(c) == c
  }

  /** `normalizeText(s)`: decompose, delete the combining marks, lower-case. */
  function NormalizeText(s: string): (r: string)
    ensures |r| <= |s|
    ensures forall k :: 0 <= k < |r| ==> IsNormal(r[k])
  {
    if s == [] then []
    else if IsCombining(s[0]) then NormalizeText(s[1..])
    else [LowerChar(BaseLetter(s[0]))] + NormalizeText(s[1..])
  }

  /** Normalisation works character by character. */
  lemma {:induction false} NormalizeAppend(a: string, b: string)
    ensures NormalizeText(a + b) == NormalizeText(a) + NormalizeText(b)
  {
    if a == [] {
      assert a + b == b;
    } else {
      assert (a + b)[1..] == a[1..] + b;
      NormalizeAppend(a[1..], b);
    }
  }

  /** Text made of normal characters is its own normal form. */
  lemma {:induction false} NormalizeFixed(s: string)
    requires forall k :: 0 <= k < |s| ==> IsNormal(s[k])
    ensures NormalizeText(s) == s
  {
    if s != [] {
      NormalizeFixed(s[1..]);
    }
  }

  /** A text whose first `m` characters normalise to `head` and whose rest
      is already normal normalises to `head` followed by that rest. */
  lemma NormalizePrefixThenFixed(s: string, m: nat, head: string)
    requires m <= |s| && NormalizeText(s[..m]) == head
    requires forall k :: m <= k < |s| ==> IsNormal(s[k])
    ensures NormalizeText(s) == head + s[m..]
  {
    assert s == s[..m] + s[m..];
    NormalizeAppend(s[..m], s[m..]);
    NormalizeFixed(s[m..]);
  }

  /** Normalising normalised text changes nothing. */
  lemma {:induction false} NormalizeIdempotent(s: string)
    ensures NormalizeText(NormalizeText(s)) == NormalizeText(s)
  {
    if s != [] {
      NormalizeIdempotent(s[1..]);
      if !IsCombining(s[0]) {
        var c := LowerChar(BaseLetter(s[0]));
        assert [c] + NormalizeText(s[1..]) == NormalizeText(s);
        assert IsNormal(c);
      }
    }
  }

  /** Case does not matter: a role and its lower-case form normalise alike. */
  lemma {:induction false} NormalizeIgnoresCase(s: string)
    ensures NormalizeText(ToLower(s)) == NormalizeText(s)
  {
    if s != [] {
      NormalizeIgnoresCase(s[1..]);
      assert ToLower(s)[1..] == ToLower(s[1..]);
      assert IsCombining(LowerChar(s[0])) == IsCombining(s[0]);
      assert LowerChar(BaseLetter(LowerChar(s[0]))) == LowerChar(BaseLetter(s[0]));
    }
  }

  // ------------------------------------------ canonical decomposition

  /** Canonical decomposition (NFD) of one character, for the precomposed
      letters of the Latin-1 Supplement: the base letter followed by its
      combining mark, as in the Unicode decomposition mappings. Every other
      character is left as it is. */
  function Decompose(c: char): (r: string)
    ensures 1 <= |r| <= 2
  {
    match c
    case '\U{C0}' => "A\U{300}"
    case '\U{C1}' => "A\U{301}"
    case '\U{C2}' => "A\U{302}"
    case '\U{C3}' => "A\U{303}"
    case '\U{C4}' => "A\U{308}"
    case '\U{C5}' => "A\U{30A}"
    case '\U{C7}' => "C\U{327}"
    case '\U{C8}' => "E\U{300}"
    case '\U{C9}' => "E\U{301}"
    case '\U{CA}' => "E\U{302}"
    case '\U{CB}' => "E\U{308}"
    case '\U{CC}' => "I\U{300}"
    case '\U{CD}' => "I\U{301}"
    case '\U{CE}' => "I\U{302}"
    case '\U{CF}' => "I\U{308}"
    case '\U{D1}' => "N\U{303}"
    case '\U{D2}' => "O\U{300}"
    case '\U{D3}' => "O\U{301}"
    case '\U{D4}' => "O\U{302}"
    case '\U{D5}' => "O\U{303}"
    case '\U{D6}' => "O\U{308}"
    case '\U{D9}' => "U\U{300}"
    case '\U{DA}' => "U\U{301}"
    case '\U{DB}' => "U\U{302}"
    case '\U{DC}' => "U\U{308}"
    case '\U{DD}' => "Y\U{301}"
    case '\U{E0}' => "a\U{300}"
    case '\U{E1}' => "a\U{301}"
    case '\U{E2}' => "a\U{302}"
    case '\U{E3}' => "a\U{303}"
    case '\U{E4}' => "a\U{308}"
    case '\U{E5}' => "a\U{30A}"
    case '\U{E7}' => "c\U{327}"
    case '\U{E8}' => "e\U{300}"
    case '\U{E9}' => "e\U{301}"
    case '\U{EA}' => "e\U{302}"
    case '\U{EB}' => "e\U{308}"
    case '\U{EC}' => "i\U{300}"
    case '\U{ED}' => "i\U{301}"
    case '\U{EE}' => "i\U{302}"
    case '\U{EF}' => "i\U{308}"
    case '\U{F1}' => "n\U{303}"
    case '\U{F2}' => "o\U{300}"
    case '\U{F3}' => "o\U{301}"
    case '\U{F4}' => "o\U{302}"
    case '\U{F5}' => "o\U{303}"
    case '\U{F6}' => "o\U{308}"
    case '\U{F9}' => "u\U{300}"
    case '\U{FA}' => "u\U{301}"
    case '\U{FB}' => "u\U{302}"
    case '\U{FC}' => "u\U{308}"
    case '\U{FD}' => "y\U{301}"
    case '\U{FF}' => "y\U{308}"
    case _ => [c]
  }

  /** `s.normalize('NFD')`, character by character. */
  function Nfd(s: string): (r: string)
    ensures |s| <= |r|
  {
    if s == [] then [] else Decompose(s[0]) + Nfd(s[1..])
  }

  /** The replace of the regular expression `[\u0300-\u036f]` by nothing. */
  function DeleteMarks(s: string): (r: string)
    ensures |r| <= |s|
    ensures forall k :: 0 <= k < |r| ==> !IsCombining(r[k])
  {
    if s == [] then [] else (if IsCombining(s[0]) then [] else [s[0]]) + DeleteMarks(s[1..])
  }

  /** The text with its accents removed and its case kept: decomposed, then
      stripped of combining marks. */
  function StripAccents(s: string): string
  {
    DeleteMarks(Nfd(s))
  }

  lemma {:induction false} DeleteMarksAppend(a: string, b: string)
    ensures DeleteMarks(a + b) == DeleteMarks(a) + DeleteMarks(b)
  {
    if a == [] {
      assert a + b == b;
    } else {
      assert (a + b)[1..] == a[1..] + b;
      DeleteMarksAppend(a[1..], b);
    }
  }

  /** Decomposing a character and deleting its mark leaves its base letter:
      the table `BaseLetter` encodes agrees with the decomposition mappings. */
  lemma DecomposeBase(c: char)
    ensures DeleteMarks(Decompose(c)) == if IsCombining(c) then [] else [BaseLetter(c)]
  {
    var d := Decompose(c);
    if c < '\U{C0}' || '\U{FF}' < c {
      assert d == [c];
    } else {
      if c < '\U{D0}' {
        DecomposeC0(c);
      } else if c < '\U{E0}' {
        DecomposeD0(c);
      } else if c < '\U{F0}' {
        DecomposeE0(c);
      } else {
        DecomposeF0(c);
      }
      assert d == [d[0]] + d[1..];
      DeleteMarksAppend([d[0]], d[1..]);
      if |d| == 2 {
        assert d[1..] == [d[1]];
      }
    }
  }

  /** A decomposition that is the base letter, followed by a combining mark
      or by nothing. */
  predicate DecomposesToBase(c: char)
  {
    var d := Decompose(c);
    !IsCombining(c) && d[0] == BaseLetter(c) && !IsCombining(d[0]) && (|d| == 2 ==> IsCombining(d[1]))
  }

  lemma DecomposeC0(c: char)
    requires '\U{C0}' <= c <= '\U{CF}'
    ensures DecomposesToBase(c)
  {
  }

  lemma DecomposeD0(c: char)
    requires '\U{D0}' <= c <= '\U{DF}'
    ensures DecomposesToBase(c)
  {
  }

  lemma DecomposeE0(c: char)
    requires '\U{E0}' <= c <= '\U{EF}'
    ensures DecomposesToBase(c)
  {
  }

  lemma DecomposeF0(c: char)
    requires '\U{F0}' <= c <= '\U{FF}'
    ensures DecomposesToBase(c)
  {
  }

  /** Removing accents works character by character. */
  lemma StripAccentsCons(s: string)
    requires s != []
    ensures StripAccents(s) == (if IsCombining(s[0]) then [] else [BaseLetter(s[0])]) + StripAccents(s[1..])
  {
    DeleteMarksAppend(Decompose(s[0]), Nfd(s[1..]));
    DecomposeBase(s[0]);
  }

  lemma ToLowerAppend(a: string, b: string)
    ensures ToLower(a + b) == ToLower(a) + ToLower(b)
  {
    assert forall k :: 0 <= k < |a + b| ==> ToLower(a + b)[k] == (ToLower(a) + ToLower(b))[k];
  }

  /** `normalizeText` is the source's pipeline: decompose, delete the
      combining marks, lower-case. */
  lemma {:induction false} NormalizePipeline(s: string)
    ensures NormalizeText(s) == ToLower(DeleteMarks(Nfd(s)))
  {
    if s != [] {
      StripAccentsCons(s);
      NormalizePipeline(s[1..]);
      var head := if IsCombining(s[0]) then [] else [BaseLetter(s[0])];
      ToLowerAppend(head, StripAccents(s[1..]));
    }
  }

  /** Accents do not matter: a role and its unaccented spelling normalise
      alike. */
  lemma {:induction false} NormalizeIgnoresAccents(s: string)
    ensures NormalizeText(StripAccents(s)) == NormalizeText(s)
  {
    if s != [] {
      StripAccentsCons(s);
      NormalizeIgnoresAccents(s[1..]);
      var head := if IsCombining(s[0]) then [] else [BaseLetter(s[0])];
      NormalizeAppend(head, StripAccents(s[1..]));
      if !IsCombining(s[0]) {
        assert BaseLetter(BaseLetter(s[0])) == BaseLetter(s[0]);
        assert NormalizeText(head) == [LowerChar(BaseLetter(s[0]))];
      }
    }
  }

  /** `isMed`: the normalised role contains one of the doctor fragments. */
  predicate IsMed(role: string)
  {
    var n := NormalizeText(role);
    Contains(n, "med") || Contains(n, "m\U{E9}d") || Contains(n, "dr")
    || Contains(n, "m\U{E9}dico") || Contains(n, "medica") || Contains(n, "m\U{E9}dica")
  }

  /** `isEnf`: the normalised role contains one of the nurse fragments. */
  predicate IsEnf(role: string)
  {
    var n := NormalizeText(role);
    Contains(n, "enf") || Contains(n, "enfer")
  }

  /** Normalised text has no accented letter, so the accented fragments of
      `isMed` never match and "medica" is subsumed by "med": a doctor is a
      role whose normalised text contains "med" or "dr". */
  lemma IsMedMeans(role: string)
    ensures IsMed(role) <==> Contains(NormalizeText(role), "med") || Contains(NormalizeText(role), "dr")
  {
    var n := NormalizeText(role);
    var e := '\U{E9}';
    assert !IsNormal(e);
    assert e !in n;
    forall t | t in ["m\U{E9}d", "m\U{E9}dico", "m\U{E9}dica"] ensures !Contains(n, t) {
      assert t[1] == e;
      if Contains(n, t) { ContainsChar(n, t, e); }
    }
    if Contains(n, "medica") {
      assert "med" <= "medica"[0..];
      ContainsTransitive(n, "medica", "med");
    }
  }

  /** "enfer" is subsumed by "enf": a nurse is a role whose normalised text
      contains "enf". */
  lemma IsEnfMeans(role: string)
    ensures IsEnf(role) <==> Contains(NormalizeText(role), "enf")
  {
    var n := NormalizeText(role);
    if Contains(n, "enfer") {
      assert "enf" <= "enfer"[0..];
      ContainsTransitive(n, "enfer", "enf");
    }
  }

  /** Roles spelled alike up to accents and case classify alike. */
  lemma SameSpellingSameBuckets(r1: string, r2: string)
    requires ToLower(StripAccents(r1)) == ToLower(StripAccents(r2))
    ensures IsMed(r1) == IsMed(r2) && IsEnf(r1) == IsEnf(r2)
  {
    NormalizePipeline(r1);
    NormalizePipeline(r2);
  }

  /** Removing a role's accents does not change its buckets. */
  lemma BucketsIgnoreAccents(role: string)
    ensures IsMed(StripAccents(role)) == IsMed(role)
    ensures IsEnf(StripAccents(role)) == IsEnf(role)
  {
    NormalizeIgnoresAccents(role);
  }
}
