/** Domain names as text: labels, ancestry, and the reversed-name index. */
module Names {
  import opened Bytes

  const MAX_LABEL := 63

  /** `strings.IndexByte(s, '.')`. */
  function IndexDot(s: Text): (i: int)
    ensures -1 <= i < |s|
    ensures i >= 0 ==> s[i] == DOT && forall k :: 0 <= k < i ==> s[k] != DOT
    ensures i < 0 ==> forall k :: 0 <= k < |s| ==> s[k] != DOT
  {
    if s == [] then -1
    else if s[0] == DOT then 0
    else
      var j := IndexDot(s[1..]);
      if j < 0 then -1 else j + 1
  }

  /** `strings.Split(s, ".")`. */
  function Labels(s: Text): (ls: seq<Text>)
    ensures |ls| > 0
    decreases |s|
  {
    var i := IndexDot(s);
    if i < 0 then [s] else [s[..i]] + Labels(s[i + 1..])
  }

  /** `strings.Join(ls, ".")`. */
  function Join(ls: seq<Text>): Text
    requires |ls| > 0
  {
    if |ls| == 1 then ls[0] else ls[0] + [DOT] + Join(ls[1..])
  }

  ghost predicate DotFree(ls: seq<Text>) {
    forall i :: 0 <= i < |ls| ==> DOT !in ls[i]
  }

  /** A first dot at `i` splits off the first label. */
  lemma {:induction false} LabelsStep(s: Text, i: nat)
    requires i < |s| && s[i] == DOT && forall k :: 0 <= k < i ==> s[k] != DOT
    ensures IndexDot(s) == i
    ensures Labels(s) == [s[..i]] + Labels(s[i + 1..]) && Labels(s)[1..] == Labels(s[i + 1..])
    ensures s == s[..i] + [DOT] + s[i + 1..]
  {
  }

  /** Splitting never leaves a dot in a label, and joining undoes it. */
  lemma {:induction false} JoinLabels(s: Text)
    ensures Join(Labels(s)) == s
    ensures DotFree(Labels(s))
    decreases |s|
  {
    var i := IndexDot(s);
    if i >= 0 {
      LabelsStep(s, i);
      JoinLabels(s[i + 1..]);
    }
  }

  lemma {:induction false} FirstOfConcat(a: Text, b: Text, i: nat)
    requires i < |a|
    ensures var s := a + [DOT] + b; s[..i] == a[..i] && s[i] == a[i] && s[i + 1..] == a[i + 1..] + [DOT] + b
    ensures forall k :: 0 <= k < i ==> (a + [DOT] + b)[k] == a[k]
  {
  }

  lemma {:induction false} OneMore(x: Text, p: seq<Text>, q: seq<Text>)
    ensures [x] + (p + q) == [x] + p + q
  {
  }

  lemma {:induction false} LabelsConcat(a: Text, b: Text)
    ensures Labels(a + [DOT] + b) == Labels(a) + Labels(b)
    decreases |a|
  {
    var s := a + [DOT] + b;
    var i := IndexDot(a);
    if i < 0 {
      LabelsStep(s, |a|);
      assert s[..|a|] == a && s[|a| + 1..] == b;
    } else {
      var rest := a[i + 1..];
      FirstOfConcat(a, b, i);
      LabelsConcat(rest, b);
      LabelsStep(s, i);
      LabelsStep(a, i);
      OneMore(a[..i], Labels(rest), Labels(b));
    }
  }

  lemma {:induction false} LabelsOfLabel(l: Text)
    requires DOT !in l
    ensures Labels(l) == [l]
  {
  }

  /** Joining dot-free labels loses nothing. */
  lemma {:induction false} LabelsJoin(ls: seq<Text>)
    requires |ls| > 0 && DotFree(ls)
    ensures Labels(Join(ls)) == ls
  {
    LabelsOfLabel(ls[0]);
    if |ls| > 1 {
      LabelsJoin(ls[1..]);
      LabelsConcat(ls[0], Join(ls[1..]));
      assert ls == [ls[0]] + ls[1..];
    } else {
      assert ls == [ls[0]];
    }
  }

  lemma {:induction false} JoinConcat(a: seq<Text>, b: seq<Text>)
    requires |a| > 0 && |b| > 0
    ensures Join(a + b) == Join(a) + [DOT] + Join(b)
  {
    if |a| > 1 {
      assert (a + b)[1..] == a[1..] + b;
      JoinConcat(a[1..], b);
    } else {
      assert (a + b)[1..] == b;
    }
  }

  /** `d` is a proper descendant of `n`: the server's `HasSuffix(d, "." + n)`. */
  predicate Below(d: Text, n: Text) {
    HasSuffix(d, [DOT] + n)
  }

  /** The reference meaning of descent: the labels of `n` end the labels of `d`. */
  ghost predicate LabelDescendant(d: Text, n: Text) {
    |Labels(n)| < |Labels(d)| && Labels(d)[|Labels(d)| - |Labels(n)|..] == Labels(n)
  }

  lemma {:induction false} BelowSplits(d: Text, n: Text) returns (x: Text)
    requires Below(d, n)
    ensures d == x + [DOT] + n
  {
    x := d[..|d| - |n| - 1];
    assert d == x + d[|x|..];
  }

  lemma {:induction false} SplitIsBelow(x: Text, n: Text)
    ensures Below(x + [DOT] + n, n)
  {
  }

  /** The text test used throughout the server is exactly label-wise descent. */
  lemma {:induction false} BelowIsLabelDescent(d: Text, n: Text)
    ensures Below(d, n) <==> LabelDescendant(d, n)
  {
    if Below(d, n) {
      var x := BelowSplits(d, n);
      LabelsConcat(x, n);
    }
    if LabelDescendant(d, n) {
      var k := |Labels(d)| - |Labels(n)|;
      JoinLabels(d);
      JoinLabels(n);
      assert Labels(d) == Labels(d)[..k] + Labels(n);
      JoinConcat(Labels(d)[..k], Labels(n));
      SplitIsBelow(Join(Labels(d)[..k]), n);
    }
  }

  predicate InZone(name: Text, zone: Text) {
    name == zone || Below(name, zone)
  }

  /** One step of every ancestor walk: drop the first label. */
  function Parent(s: Text): Text
    requires DOT in s
  {
    s[IndexDot(s) + 1..]
  }

  lemma {:induction false} ParentBelow(s: Text)
    requires DOT in s
    ensures Below(s, Parent(s)) && |Parent(s)| < |s|
    ensures Labels(Parent(s)) == Labels(s)[1..]
  {
  }

  lemma {:induction false} BelowParent(d: Text, n: Text)
    requires Below(d, n)
    ensures DOT in d && InZone(Parent(d), n)
  {
    var x := |d| - |n| - 1;
    assert d[x] == d[x..][0] == DOT;
    var i := IndexDot(d);
    assert d[x] in d;
    var p := Parent(d);
    if i == x {
      assert p == d[x..][1..] == n;
    } else {
      assert p[|p| - |n| - 1..] == d[x..];
    }
  }

  lemma {:induction false} BelowTrans(a: Text, b: Text, c: Text)
    requires Below(a, b) && Below(b, c)
    ensures Below(a, c)
  {
  }

  lemma {:induction false} InZoneTrans(a: Text, b: Text, c: Text)
    requires InZone(a, b) && InZone(b, c)
    ensures InZone(a, c)
  {
  }

  /** Two ancestors of one name are comparable. */
  lemma {:induction false} AncestorsComparable(d: Text, a: Text, b: Text)
    requires InZone(d, a) && InZone(d, b)
    ensures InZone(a, b) || Below(b, a)
  {
    if d != a && d != b {
      assert a == d[|d| - |a| - 1..][1..] == d[|d| - |a|..];
      assert b == d[|d| - |b| - 1..][1..] == d[|d| - |b|..];
      if |a| > |b| {
        assert a[|a| - |b| - 1..] == d[|d| - |b| - 1..];
      } else if |b| > |a| {
        assert b[|b| - |a| - 1..] == d[|d| - |a| - 1..];
      }
    }
  }

  lemma {:induction false} BelowIrreflexive(a: Text, b: Text)
    ensures Below(a, b) ==> |a| > |b| && !InZone(b, a)
  {
  }

  // ---- the reversed-name index -------------------------------------------------------

  function Reversed<T>(s: seq<T>): (r: seq<T>)
    ensures |r| == |s|
    ensures forall i :: 0 <= i < |s| ==> r[i] == s[|s| - 1 - i]
  {
    seq(|s|, i requires 0 <= i < |s| => s[|s| - 1 - i])
  }

  function ReverseName(n: Text): Text {
    Join(Reversed(Labels(n)))
  }

  /** The in-place label swap computes `ReverseName`. */
  method ReverseLabels(name: Text) returns (rev: Text)
    ensures rev == ReverseName(name)
  {
    var ls := Labels(name);
    var labels := new Text[|ls|](i requires 0 <= i < |ls| => ls[i]);
    var i, j := 0, |ls| - 1;
    while i < j
      invariant 0 <= i <= j + 1 && j == |ls| - 1 - i
      invariant forall k :: 0 <= k < i ==> labels[k] == ls[|ls| - 1 - k]
      invariant forall k :: j < k < |ls| ==> labels[k] == ls[|ls| - 1 - k]
      invariant forall k :: i <= k <= j ==> labels[k] == ls[k]
    {
      labels[i], labels[j] := labels[j], labels[i];
      i, j := i + 1, j - 1;
    }
    assert labels[..] == Reversed(ls);
    rev := Join(labels[..]);
  }

  /** Reversing twice restores the name. */
  lemma {:induction false} ReverseNameInvolution(n: Text)
    ensures Labels(ReverseName(n)) == Reversed(Labels(n))
    ensures ReverseName(ReverseName(n)) == n
  {
    JoinLabels(n);
    LabelsJoin(Reversed(Labels(n)));
    assert Reversed(Reversed(Labels(n))) == Labels(n);
  }

  lemma {:induction false} PrefixIsLabelPrefix(s: Text, p: Text)
    ensures HasPrefix(s, p + [DOT]) <==> Labels(p) < Labels(s)
  {
    if HasPrefix(s, p + [DOT]) {
      var rest := s[|p| + 1..];
      assert s == p + [DOT] + rest;
      LabelsConcat(p, rest);
    }
    if Labels(p) < Labels(s) {
      JoinLabels(s);
      JoinLabels(p);
      var rest := Labels(s)[|Labels(p)|..];
      assert Labels(s) == Labels(p) + rest;
      JoinConcat(Labels(p), rest);
    }
  }

  /** The half-open byte range the index scan asks for. */
  predicate InScan(s: Text, p: Text) {
    !Less(s, p + [DOT]) && Less(s, p + [SLASH])
  }

  lemma {:induction false} LessThanByte(s: Text, c: byte)
    ensures Less(s, [c]) <==> s == [] || s[0] < c
  {
  }

  lemma {:induction false} ScanIsPrefix(s: Text, p: Text)
    ensures InScan(s, p) <==> HasPrefix(s, p + [DOT])
  {
    if p == [] {
      assert p + [DOT] == [DOT] && p + [SLASH] == [SLASH];
      LessThanByte(s, DOT);
      LessThanByte(s, SLASH);
    } else {
      assert (p + [DOT])[1..] == p[1..] + [DOT];
      assert (p + [SLASH])[1..] == p[1..] + [SLASH];
      if s != [] && s[0] == p[0] {
        ScanIsPrefix(s[1..], p[1..]);
        assert s == [s[0]] + s[1..] && p + [DOT] == [p[0]] + (p[1..] + [DOT]);
      }
    }
  }

  lemma {:induction false} ReversedPrefix<T>(a: seq<T>, b: seq<T>)
    ensures Reversed(b) < Reversed(a) <==> |b| < |a| && a[|a| - |b|..] == b
  {
    if Reversed(b) < Reversed(a) {
      forall i | 0 <= i < |b|
        ensures a[|a| - |b| + i] == b[i]
      {
        assert Reversed(a)[|b| - 1 - i] == Reversed(b)[|b| - 1 - i];
      }
      assert a[|a| - |b|..] == b;
    }
    if |b| < |a| && a[|a| - |b|..] == b {
      forall i | 0 <= i < |b|
        ensures Reversed(a)[i] == Reversed(b)[i]
      {
        assert a[|a| - |b|..][|b| - 1 - i] == b[|b| - 1 - i];
      }
      assert Reversed(a)[..|b|] == Reversed(b);
    }
  }

  /** The scan `[rev(n) + ".", rev(n) + "/")` over the reversed names selects exactly the
      proper descendants of `n`, for all strings. */
  lemma {:induction false} ScanSelectsDescendants(d: Text, n: Text)
    ensures InScan(ReverseName(d), ReverseName(n)) <==> LabelDescendant(d, n)
    ensures InScan(ReverseName(d), ReverseName(n)) <==> Below(d, n)
  {
    ScanIsPrefix(ReverseName(d), ReverseName(n));
    PrefixIsLabelPrefix(ReverseName(d), ReverseName(n));
    ReverseNameInvolution(d);
    ReverseNameInvolution(n);
    BelowIsLabelDescent(d, n);
    ReversedPrefix(Labels(d), Labels(n));
  }
}
