/** The gate every stored name passes, and the normalisation applied before it. */
module Validation {
  import opened Bytes
  import opened Names

  const MAX_TEXT := 253

  predicate NameByte(c: byte) {
    97 <= c <= 122 || 48 <= c <= 57 || c == HYPHEN || c == UNDERSCORE
  }

  predicate ValidLabel(l: Text, leftmost: bool) {
    && 0 < |l| <= MAX_LABEL
    && if l == [STAR] then leftmost
       else (forall j :: 0 <= j < |l| ==> NameByte(l[j])) && l[0] != HYPHEN && l[|l| - 1] != HYPHEN
  }

  predicate ValidName(n: Text) {
    && n != [] && |n| <= MAX_TEXT
    && forall i :: 0 <= i < |Labels(n)| ==> ValidLabel(Labels(n)[i], i == 0)
  }

  /** The nested index loops with early returns accept exactly the valid names. */
  method ValidateName(name: Text) returns (ok: bool)
    ensures ok <==> ValidName(name)
  {
    if name == [] || |name| > MAX_TEXT {
      return false;
    }
    var labels := Labels(name);
    for i := 0 to |labels|
      invariant forall k :: 0 <= k < i ==> ValidLabel(labels[k], k == 0)
    {
      var l := labels[i];
      if l == [] || |l| > MAX_LABEL {
        return false;
      }
      if l == [STAR] {
        if i != 0 {
          return false;
        }
        continue;
      }
      for j := 0 to |l|
        invariant forall k :: 0 <= k < j ==> NameByte(l[k])
      {
        if !NameByte(l[j]) {
          return false;
        }
      }
      if l[0] == HYPHEN || l[|l| - 1] == HYPHEN {
        return false;
      }
    }
    return true;
  }

  function NormalizeZone(name: Text): Text {
    TrimDot(Lower(TrimSpace(name)))
  }

  function NormalizeName(zone: Text, name: Text): (r: Text)
    ensures InZone(r, zone)
  {
    var n := NormalizeZone(name);
    if n == [] || n == [AT] || n == zone then zone
    else if HasSuffix(n, [DOT] + zone) then n
    else SplitIsBelow(n, zone); n + [DOT] + zone
  }

  /** What the name becomes, `n` being its text without white space, capitals and final dot. It is the
      zone itself if and only if `n` is empty, "@" or the zone; a name below the zone stays; and any
      other is put in front of the zone, label by label. */
  lemma {:induction false} NormalizedNameIs(zone: Text, name: Text)
    ensures var n, r := NormalizeZone(name), NormalizeName(zone, name);
            && (r == zone <==> n == [] || n == [64] || n == zone)
            && (Below(n, zone) ==> r == n)
            && (n != [] && n != [64] && !InZone(n, zone) ==> Labels(r) == Labels(n) + Labels(zone))
  {
    LabelsConcat(NormalizeZone(name), zone);
  }

  predicate White(s: Text) {
    forall i :: 0 <= i < |s| ==> s[i] in {9, 10, 11, 12, 13, 32}
  }

  lemma {:induction false} TrimLeftWhite(a: Text, s: Text)
    requires White(a) && (s == [] || s[0] !in {9, 10, 11, 12, 13, 32})
    ensures TrimLeft(a + s) == s
  {
    if a == [] {
      assert a + s == s;
    } else {
      assert (a + s)[1..] == a[1..] + s;
      TrimLeftWhite(a[1..], s);
    }
  }

  lemma {:induction false} TrimRightWhite(s: Text, b: Text)
    requires White(b) && (s == [] || s[|s| - 1] !in {9, 10, 11, 12, 13, 32})
    ensures TrimRight(s + b) == s
  {
    if b == [] {
      assert s + b == s;
    } else {
      assert (s + b)[..|s + b| - 1] == s + b[..|b| - 1];
      TrimRightWhite(s, b[..|b| - 1]);
    }
  }

  /** Normalising a zone takes off the white space around its text and one final dot, and turns
      capitals into small letters; nothing else changes. */
  lemma {:induction false} NormalizedZoneIs(before: Text, core: Text, after: Text)
    requires White(before) && White(after) && core != []
    requires core[0] !in {9, 10, 11, 12, 13, 32} && core[|core| - 1] !in {9, 10, 11, 12, 13, 32}
    ensures var r := NormalizeZone(before + core + after);
            && |r| == |core| - (if core[|core| - 1] == 46 then 1 else 0)
            && forall i :: 0 <= i < |r| ==> r[i] == if 65 <= core[i] <= 90 then core[i] + 32 else core[i]
  {
    assert before + core + after == before + (core + after);
    TrimLeftWhite(before, core + after);
    TrimRightWhite(core, after);
  }

  /** "*" in front, or 1 to 63 small letters, digits, "-" and "_" with no "-" at either end. */
  predicate LabelAllowed(l: Text, leftmost: bool) {
    || (leftmost && l == [42])
    || (&& 1 <= |l| <= 63 && l[0] != 45 && l[|l| - 1] != 45
        && forall j :: 0 <= j < |l| ==> 97 <= l[j] <= 122 || 48 <= l[j] <= 57 || l[j] == 45 || l[j] == 95)
  }

  lemma {:induction false} ValidLabelIs(l: Text, leftmost: bool)
    ensures ValidLabel(l, leftmost) <==> LabelAllowed(l, leftmost)
  {
    assert l == [42] ==> l[0] == 42;
  }

  predicate LabelsAllowed(ls: seq<Text>) {
    forall i :: 0 <= i < |ls| ==> LabelAllowed(ls[i], i == 0)
  }

  lemma {:induction false} ValidLabelsAre(ls: seq<Text>)
    ensures LabelsAllowed(ls) <==> forall i :: 0 <= i < |ls| ==> ValidLabel(ls[i], i == 0)
  {
    forall i | 0 <= i < |ls|
      ensures ValidLabel(ls[i], i == 0) <==> LabelAllowed(ls[i], i == 0)
    {
      ValidLabelIs(ls[i], i == 0);
    }
  }

  /** The names that pass: 1 to 253 octets, of allowed labels. */
  lemma {:induction false} ValidNameIs(n: Text)
    ensures ValidName(n) <==> 1 <= |n| <= 253 && LabelsAllowed(Labels(n))
  {
    ValidLabelsAre(Labels(n));
  }

  /** Text on which normalisation has nothing to do. */
  predicate Clean(s: Text) {
    && s != [] && s[|s| - 1] != DOT
    && forall k :: 0 <= k < |s| ==> !IsSpace(s[k]) && LowerByte(s[k]) == s[k]
  }

  lemma {:induction false} CleanIsFixed(s: Text)
    requires Clean(s)
    ensures NormalizeZone(s) == s
  {
  }

  /** Every ancestor of clean text is clean. */
  lemma {:induction false} CleanAncestor(n: Text, z: Text)
    requires Clean(n) && InZone(n, z)
    ensures Clean(z)
  {
    if n != z {
      var d := |n| - |z|;
      assert n[d - 1..] == [DOT] + z;
      assert z == n[d..];
      assert n[d - 1] == DOT;
    }
  }

  lemma {:induction false} ByteInLabel(n: Text, k: nat) returns (l: Text)
    requires k < |n| && n[k] != DOT
    ensures l in Labels(n) && n[k] in l
    decreases |n|
  {
    var d := IndexDot(n);
    if d < 0 {
      l := n;
    } else if k < d {
      l := n[..d];
      assert l[k] == n[k];
    } else {
      var rest := n[d + 1..];
      assert rest[k - d - 1] == n[k];
      l := ByteInLabel(rest, k - d - 1);
    }
  }

  /** The bytes of a valid name. */
  lemma {:induction false} ValidByte(n: Text, k: nat)
    requires ValidName(n) && k < |n|
    ensures n[k] == DOT || n[k] == STAR || NameByte(n[k])
  {
    if n[k] != DOT {
      var l := ByteInLabel(n, k);
      var i :| 0 <= i < |Labels(n)| && Labels(n)[i] == l;
      assert ValidLabel(Labels(n)[i], i == 0);
    }
  }

  lemma {:induction false} TrailingDotLabel(n: Text)
    requires n != [] && n[|n| - 1] == DOT
    ensures [] in Labels(n)
  {
    var x := n[..|n| - 1];
    assert n == x + [DOT] + [];
    LabelsConcat(x, []);
    assert Labels([]) == [[]];
    assert Labels(n)[|Labels(x)|] == [];
  }

  lemma {:induction false} ValidIsClean(n: Text)
    requires ValidName(n)
    ensures Clean(n)
  {
    if n[|n| - 1] == DOT { TrailingDotLabel(n); }
    forall k | 0 <= k < |n|
      ensures !IsSpace(n[k]) && LowerByte(n[k]) == n[k]
    {
      ValidByte(n, k);
    }
  }

  /** Once a name has been validated, normalising its zone and itself again changes nothing,
      so the row written and the change announced carry the same name. */
  lemma {:induction false} SecondNormalizationIsIdentity(zone: Text, name: Text)
    requires ValidName(name) && InZone(name, zone)
    ensures NormalizeZone(zone) == zone
    ensures NormalizeName(zone, name) == name
  {
    ValidIsClean(name);
    CleanIsFixed(name);
    CleanAncestor(name, zone);
    CleanIsFixed(zone);
    ValidByte(name, 0);
  }
}
