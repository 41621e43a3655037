/** Names on the wire: packing, and parsing with compression pointers. */
module WireName {
  import opened Bytes
  import opened Names

  const MAX_NAME := 255
  const MAX_HOPS := 16

  // ---- packing -----------------------------------------------------------------------

  predicate GoodLabels(ls: seq<Text>) {
    forall i :: 0 <= i < |ls| ==> 0 < |ls[i]| <= MAX_LABEL
  }

  /** Length-prefixed labels, then the root byte: the pointer-free form of a name. */
  function Wire(ls: seq<Text>): Text
    requires GoodLabels(ls)
  {
    if ls == [] then [0] else [|ls[0]| as byte] + ls[0] + Wire(ls[1..])
  }

  /** Octets of the pointer-free form. */
  function WireSize(ls: seq<Text>): nat {
    if ls == [] then 1 else 1 + |ls[0]| + WireSize(ls[1..])
  }

  predicate Packable(name: Text) {
    var n := TrimDot(name);
    n == [] || (|n| + 2 <= MAX_NAME && GoodLabels(Labels(n)))
  }

  /** A name can be packed if, one final dot left out, it is empty or has at most 253 octets in labels of
      1 to 63. */
  lemma {:induction false} PackableIs(name: Text)
    ensures var n := if name != [] && name[|name| - 1] == 46 then name[..|name| - 1] else name;
            Packable(name) <==> n == [] || (|n| <= 253 && LabelsSized(Labels(n)))
  {
    SizedIs(Labels(TrimDot(name)));
  }

  predicate LabelsSized(ls: seq<Text>) {
    forall i :: 0 <= i < |ls| ==> 1 <= |ls[i]| <= 63
  }

  lemma {:induction false} SizedIs(ls: seq<Text>)
    ensures GoodLabels(ls) <==> LabelsSized(ls)
  {
  }

  /** The labels `PackName` writes: none for the root. */
  function NameLabels(name: Text): seq<Text> {
    var n := TrimDot(name);
    if n == [] then [] else Labels(n)
  }

  function PackName(name: Text): Option<Text> {
    if Packable(name) then Some(Wire(NameLabels(name))) else None
  }

  /** The form a packed name has after parsing: one trailing dot gone, the root as ".". */
  function Canonical(name: Text): Text {
    var n := TrimDot(name);
    if n == [] then [DOT] else n
  }

  /** `rest` is what splitting finds from `start` on; nothing once past the last label. */
  ghost predicate Remaining(name: Text, start: nat, rest: seq<Text>) {
    if start <= |name| then rest == Labels(name[start..]) else rest == []
  }

  /** No dot lies between `start` and `i`, and `rest` is still to be written. */
  ghost predicate Scanned(name: Text, start: nat, i: nat, rest: seq<Text>) {
    && start <= i <= |name| + 1 && (i == |name| + 1 ==> start == i) && Remaining(name, start, rest)
    && forall k :: start <= k < i ==> k < |name| && name[k] != DOT
  }

  lemma {:induction false} LabelsPeel(name: Text, start: nat, i: nat, rest: seq<Text>)
    requires Scanned(name, start, i, rest) && i <= |name| && (i < |name| ==> name[i] == DOT)
    ensures rest != [] && rest == [name[start..i]] + rest[1..] && Scanned(name, i + 1, i + 1, rest[1..])
  {
    if i < |name| {
      PeelAtDot(name, start, i);
    } else {
      assert name[start..] == name[start..i];
      PeelLast(name[start..i]);
    }
  }

  lemma {:induction false} PeelAtDot(name: Text, start: nat, i: nat)
    requires start <= i < |name| && name[i] == DOT && forall k :: start <= k < i ==> name[k] != DOT
    ensures Labels(name[start..]) == [name[start..i]] + Labels(name[i + 1..])
  {
    var t, d := name[start..], i - start;
    assert forall k :: 0 <= k < d ==> t[k] == name[start + k];
    LabelsStep(t, d);
    assert t[..d] == name[start..i];
    assert t[d + 1..] == name[i + 1..];
  }

  lemma {:induction false} PeelLast(t: Text)
    requires forall k :: 0 <= k < |t| ==> t[k] != DOT
    ensures Labels(t) == [t]
  {
  }

  /** `out` holds the labels of `name` written so far and `rest` those to come. */
  ghost predicate Progress(buf: Text, out: Text, name: Text, rest: seq<Text>) {
    && (GoodLabels(Labels(name)) <==> GoodLabels(rest))
    && (GoodLabels(rest) ==> out + Wire(rest) == buf + Wire(Labels(name)))
  }

  lemma {:induction false} ProgressStep(buf: Text, out: Text, name: Text, l: Text, rest: seq<Text>)
    requires Progress(buf, out, name, [l] + rest)
    ensures 0 < |l| <= MAX_LABEL ==> Progress(buf, out + [|l| as byte] + l, name, rest)
    ensures !(0 < |l| <= MAX_LABEL) ==> !GoodLabels(Labels(name))
  {
  }

  lemma {:induction false} ProgressDone(buf: Text, out: Text, name: Text)
    requires Progress(buf, out, name, [])
    ensures GoodLabels(Labels(name)) && out + [0] == buf + Wire(Labels(name))
  {
  }

  /** The scan for dots appends exactly the pointer-free form, and fails exactly when the
      name is not packable. */
  method AppendPacked(buf: Text, name0: Text) returns (out: Text, ok: bool)
    ensures ok <==> Packable(name0)
    ensures ok ==> out == buf + Wire(NameLabels(name0))
  {
    var name := TrimDot(name0);
    if name == [] {
      return buf + [0], true;
    }
    if |name| + 2 > MAX_NAME {
      return buf, false;
    }
    out := buf;
    var start, i := 0, 0;
    ghost var rest := Labels(name);
    assert name[0..] == name;
    while i <= |name|
      invariant Scanned(name, start, i, rest)
      invariant Progress(buf, out, name, rest)
    {
      if i < |name| && name[i] != DOT {
        i := i + 1;
        continue;
      }
      LabelsPeel(name, start, i, rest);
      var l := name[start..i];
      ProgressStep(buf, out, name, l, rest[1..]);
      if |l| == 0 || |l| > MAX_LABEL {
        return out, false;
      }
      out := out + [|l| as byte] + l;
      rest := rest[1..];
      i := i + 1;
      start := i;
    }
    ProgressDone(buf, out, name);
    out := out + [0];
    ok := true;
  }

  // ---- parsing -----------------------------------------------------------------------

  /** The decoding loop as a function of its local variables. */
  function ParseFrom(buf: Text, next: nat, text: Text, end: Option<nat>, hops: nat, nameLen: nat): Option<(Text, nat)>
    requires hops <= MAX_HOPS
    decreases MAX_HOPS - hops, |buf| - next
  {
    if next >= |buf| then None
    else
      var b := buf[next];
      if b == 0 then
        Some((if text == [] then [DOT] else text, if end.Some? then end.value else next + 1))
      else if b <= MAX_LABEL then
        if next + 1 + b > |buf| || nameLen + 1 + b > MAX_NAME then None
        else
          ParseFrom(buf, next + 1 + b, (if text == [] then text else text + [DOT]) + buf[next + 1..next + 1 + b],
                    end, hops, nameLen + 1 + b)
      else if b >= 192 then
        if next + 1 >= |buf| || hops + 1 > MAX_HOPS then None
        else
          ParseFrom(buf, (b - 192) * 256 + buf[next + 1], text,
                    if end.Some? then end else Some(next + 2), hops + 1, nameLen)
      else None
  }

  function ParseName(buf: Text, offset: nat): Option<(Text, nat)> {
    ParseFrom(buf, offset, [], None, 0, 1)
  }

  /** Out of the buffer, a label that overflows it, a reserved type, or a pointer cut short or
      one too many. */
  predicate Malformed(buf: Text, next: nat, hops: nat) {
    || next >= |buf| || (0 < buf[next] <= MAX_LABEL && next + 1 + buf[next] > |buf|)
    || MAX_LABEL < buf[next] < 192 || (buf[next] >= 192 && (next + 1 >= |buf| || hops >= MAX_HOPS))
  }

  /** The loop's variables at some turn, on the way to the result. */
  ghost predicate Decoding(buf: Text, next: nat, text: Text, end: Option<nat>, hops: nat, nameLen: nat,
                           all: Option<(Text, nat)>) {
    hops <= MAX_HOPS && ParseFrom(buf, next, text, end, hops, nameLen) == all
  }

  /** The text after one more label. */
  function Longer(text: Text, l: Text): Text {
    (if text == [] then text else text + [DOT]) + l
  }

  /** What one turn makes of the variables, case by case. */
  lemma {:induction false} DecodingStep(buf: Text, next: nat, text: Text, end: Option<nat>, hops: nat, nameLen: nat,
                                        all: Option<(Text, nat)>)
    requires Decoding(buf, next, text, end, hops, nameLen, all)
    ensures Malformed(buf, next, hops) ==> all == None
    ensures !Malformed(buf, next, hops) ==>
              var b := buf[next];
              if b == 0 then
                all == Some((if text == [] then [DOT] else text, if end.Some? then end.value else next + 1))
              else if b <= MAX_LABEL then
                if nameLen + 1 + b > MAX_NAME then all == None
                else
                  var l := buf[next + 1..next + 1 + b];
                  Decoding(buf, next + 1 + b, Longer(text, l), end, hops, nameLen + 1 + b, all)
              else
                Decoding(buf, (b as int - 192) * 256 + buf[next + 1], text, if end.Some? then end else Some(next + 2),
                         hops + 1, nameLen, all)
  {
  }

  /** The decoding loop terminates on every buffer and offset, its measure being the hops left
      and then the bytes left, and never reads outside the buffer. */
  method DecodeName(buf: Text, offset: nat) returns (r: Option<(Text, nat)>)
    ensures r == ParseName(buf, offset)
  {
    var text: Text := [];
    var next: nat, endOff: nat, hops: nat, nameLen: nat := offset, 0, 0, 1;
    var followed := false;
    ghost var all := ParseName(buf, offset);
    while true
      invariant Decoding(buf, next, text, if followed then Some(endOff) else None, hops, nameLen, all)
      decreases MAX_HOPS - hops, |buf| - next
    {
      ghost var end := if followed then Some(endOff) else None;
      DecodingStep(buf, next, text, end, hops, nameLen, all);
      if next >= |buf| {
        return None;
      }
      var b := buf[next];
      if b < 64 {
        if b == 0 {
          if !followed {
            endOff := next + 1;
          }
          if |text| == 0 {
            return Some(([DOT], endOff));
          }
          return Some((text, endOff));
        }
        var start := next + 1;
        var stop := start + b;
        if stop > |buf| {
          return None;
        }
        nameLen := nameLen + 1 + b;
        if nameLen > MAX_NAME {
          return None;
        }
        if |text| > 0 {
          text := text + [DOT];
        }
        text := text + buf[start..stop];
        next := stop;
      } else if b >= 192 {
        if next + 1 >= |buf| {
          return None;
        }
        var ptr := (b - 192) * 256 + buf[next + 1];
        if !followed {
          endOff, followed := next + 2, true;
        }
        hops := hops + 1;
        if hops > MAX_HOPS {
          return None;
        }
        next := ptr;
      } else {
        return None;
      }
    }
  }

  // ---- what a wire name means --------------------------------------------------------

  /** The label sequence spelled at an offset, pointers followed: the reference meaning. */
  function WireLabels(buf: Text, next: nat, hops: nat): (ls: Option<seq<Text>>)
    requires hops <= MAX_HOPS
    ensures ls.Some? ==> GoodLabels(ls.value)
    decreases MAX_HOPS - hops, |buf| - next
  {
    if next >= |buf| then None
    else
      var b := buf[next];
      if b == 0 then Some([])
      else if b <= MAX_LABEL then
        if next + 1 + b > |buf| then None
        else
          var rest := WireLabels(buf, next + 1 + b, hops);
          if rest.None? then None else Some([buf[next + 1..next + 1 + b]] + rest.value)
      else if b >= 192 && next + 1 < |buf| && hops < MAX_HOPS then
        WireLabels(buf, (b - 192) * 256 + buf[next + 1], hops + 1)
      else None
  }

  /** Where the encoding at an offset ends: after its root byte or its first pointer. */
  function EndOf(buf: Text, next: nat): nat
    decreases |buf| - next
  {
    if next >= |buf| then next
    else
      var b := buf[next];
      if b == 0 then next + 1
      else if b <= MAX_LABEL then EndOf(buf, next + 1 + b)
      else next + 2
  }

  function Render(ls: seq<Text>): Text {
    if ls == [] then [DOT] else Join(ls)
  }

  function TextOf(ls: seq<Text>): Text {
    if ls == [] then [] else Join(ls)
  }

  lemma {:induction false} WireSizeAppend(ls: seq<Text>, l: Text)
    ensures WireSize(ls + [l]) == WireSize(ls) + 1 + |l|
  {
    if ls != [] {
      assert (ls + [l])[1..] == ls[1..] + [l];
      WireSizeAppend(ls[1..], l);
    } else {
      assert ls + [l] == [l] && [l][1..] == [];
    }
  }

  lemma {:induction false} WireSizeMonotone(a: seq<Text>, b: seq<Text>)
    ensures WireSize(a) <= WireSize(a + b)
  {
    if a == [] {
    } else {
      assert (a + b)[1..] == a[1..] + b;
      WireSizeMonotone(a[1..], b);
    }
  }

  lemma {:induction false} JoinNonEmpty(ls: seq<Text>)
    requires ls != [] && GoodLabels(ls)
    ensures Join(ls) != []
  {
  }

  lemma {:induction false} TextOfAppend(ls: seq<Text>, l: Text)
    requires GoodLabels(ls) && 0 < |l|
    ensures TextOf(ls + [l]) == (if TextOf(ls) == [] then [] else TextOf(ls) + [DOT]) + l
    ensures TextOf(ls) == [] <==> ls == []
  {
    if ls != [] {
      JoinNonEmpty(ls);
      JoinConcat(ls, [l]);
    } else {
      assert ls + [l] == [l];
    }
  }

  /** The loop, started after the labels `pre`, computes the reference meaning. */
  ghost predicate Means(buf: Text, next: nat, pre: seq<Text>, end: Option<nat>, hops: nat)
    requires hops <= MAX_HOPS
  {
    var r := ParseFrom(buf, next, TextOf(pre), end, hops, WireSize(pre));
    var ls := WireLabels(buf, next, hops);
    r == if ls.None? || WireSize(pre + ls.value) > MAX_NAME then None
         else Some((Render(pre + ls.value), if end.Some? then end.value else EndOf(buf, next)))
  }

  lemma {:induction false} LabelMeans(buf: Text, next: nat, pre: seq<Text>, end: Option<nat>, hops: nat, b: nat,
                                      l: Text)
    requires hops <= MAX_HOPS && GoodLabels(pre) && WireSize(pre) <= MAX_NAME
    requires next < |buf| && b == buf[next] && 0 < b <= MAX_LABEL && next + 1 + b <= |buf|
    requires l == buf[next + 1..next + 1 + b]
    requires WireSize(pre + [l]) <= MAX_NAME ==> Means(buf, next + 1 + b, pre + [l], end, hops)
    ensures Means(buf, next, pre, end, hops)
  {
    WireSizeAppend(pre, l);
    TextOfAppend(pre, l);
    var rest := WireLabels(buf, next + 1 + b, hops);
    if rest.Some? {
      assert pre + ([l] + rest.value) == (pre + [l]) + rest.value;
      WireSizeMonotone(pre + [l], rest.value);
    }
  }

  lemma {:induction false} RootMeans(buf: Text, next: nat, pre: seq<Text>, end: Option<nat>, hops: nat)
    requires hops <= MAX_HOPS && GoodLabels(pre) && WireSize(pre) <= MAX_NAME && next < |buf| && buf[next] == 0
    ensures Means(buf, next, pre, end, hops)
  {
    assert pre + [] == pre;
    TextOfAppend(pre, [0]);
  }

  lemma {:induction false} PointerMeans(buf: Text, next: nat, pre: seq<Text>, end: Option<nat>, end': Option<nat>,
                                        hops: nat, ptr: nat)
    requires hops < MAX_HOPS && next + 1 < |buf| && buf[next] >= 192
             && ptr == (buf[next] as int - 192) * 256 + buf[next + 1]
    requires end' == (if end.Some? then end else Some(next + 2)) && Means(buf, ptr, pre, end', hops + 1)
    ensures Means(buf, next, pre, end, hops)
  {
  }

  lemma {:induction false} MalformedMeans(buf: Text, next: nat, pre: seq<Text>, end: Option<nat>, hops: nat)
    requires hops <= MAX_HOPS && Malformed(buf, next, hops)
    ensures Means(buf, next, pre, end, hops)
  {
  }

  lemma {:induction false} GoodAppend(pre: seq<Text>, l: Text)
    requires GoodLabels(pre) && 0 < |l| <= MAX_LABEL
    ensures GoodLabels(pre + [l])
  {
  }

  lemma {:induction false} ParseFromMeans(buf: Text, next: nat, pre: seq<Text>, end: Option<nat>, hops: nat)
    requires hops <= MAX_HOPS && GoodLabels(pre) && WireSize(pre) <= MAX_NAME
    ensures Means(buf, next, pre, end, hops)
    decreases MAX_HOPS - hops, |buf| - next
  {
    if Malformed(buf, next, hops) {
      MalformedMeans(buf, next, pre, end, hops);
    } else {
      var b := buf[next];
      if b == 0 {
        RootMeans(buf, next, pre, end, hops);
      } else if b <= MAX_LABEL {
        var l := buf[next + 1..next + 1 + b];
        GoodAppend(pre, l);
        if WireSize(pre + [l]) <= MAX_NAME {
          ParseFromMeans(buf, next + 1 + b, pre + [l], end, hops);
        }
        LabelMeans(buf, next, pre, end, hops, b, l);
      } else {
        var end' := if end.Some? then end else Some(next + 2);
        var ptr: nat := (b - 192) * 256 + buf[next + 1];
        ParseFromMeans(buf, ptr, pre, end', hops + 1);
        PointerMeans(buf, next, pre, end, end', hops, ptr);
      }
    }
  }

  lemma {:induction false} EndOfBounds(buf: Text, next: nat, hops: nat)
    requires hops <= MAX_HOPS && WireLabels(buf, next, hops).Some?
    ensures next < EndOf(buf, next) <= |buf|
    decreases |buf| - next
  {
    if buf[next] != 0 && buf[next] <= MAX_LABEL {
      EndOfBounds(buf, next + 1 + buf[next], hops);
    }
  }

  /** For every buffer and offset: parsing succeeds exactly when the bytes spell labels of at
      most 255 octets in all, and returns those labels and an end past the start and inside
      the buffer. */
  lemma {:induction false} ParseNameMeans(buf: Text, offset: nat)
    ensures var r := ParseName(buf, offset);
            var ls := WireLabels(buf, offset, 0);
            && (r.Some? <==> ls.Some? && WireSize(ls.value) <= MAX_NAME)
            && (r.Some? ==> r.value.0 == Render(ls.value) && offset < r.value.1 == EndOf(buf, offset) <= |buf|)
  {
    ParseFromMeans(buf, offset, [], None, 0);
    var ls := WireLabels(buf, offset, 0);
    if ls.Some? {
      assert [] + ls.value == ls.value;
      EndOfBounds(buf, offset, 0);
    }
  }

  lemma {:induction false} WireLength(ls: seq<Text>)
    requires GoodLabels(ls)
    ensures |Wire(ls)| == WireSize(ls)
  {
    if ls != [] { WireLength(ls[1..]); }
  }

  lemma {:induction false} JoinLength(ls: seq<Text>)
    requires ls != []
    ensures |Join(ls)| + 2 == WireSize(ls)
  {
    if |ls| > 1 {
      JoinLength(ls[1..]);
    } else {
      assert ls[1..] == [];
    }
  }

  lemma {:induction false} NoTrailingDot(ls: seq<Text>)
    requires ls != [] && GoodLabels(ls) && DotFree(ls)
    ensures Join(ls)[|Join(ls)| - 1] != DOT && TrimDot(Join(ls)) == Join(ls)
  {
    if |ls| > 1 {
      NoTrailingDot(ls[1..]);
    }
  }

  /** When no decoded label contains a dot, packing the parsed name gives the pointer-free
      expansion of what was parsed, in at most 255 octets. */
  lemma {:induction false} RepackIsExpansion(buf: Text, offset: nat)
    requires ParseName(buf, offset).Some?
    requires WireLabels(buf, offset, 0).Some? && DotFree(WireLabels(buf, offset, 0).value)
    ensures var ls := WireLabels(buf, offset, 0).value;
            PackName(ParseName(buf, offset).value.0) == Some(Wire(ls)) && |Wire(ls)| <= MAX_NAME
  {
    ParseNameMeans(buf, offset);
    var ls := WireLabels(buf, offset, 0).value;
    WireLength(ls);
    if ls != [] {
      NoTrailingDot(ls);
      JoinLength(ls);
      LabelsJoin(ls);
    }
  }

  // ---- round trip --------------------------------------------------------------------

  lemma {:induction false} LabelInWire(buf: Text, pre: Text, l: Text, more: Text, post: Text)
    requires |l| <= MAX_LABEL && buf == pre + ([|l| as byte] + l + more) + post
    ensures buf == pre + ([|l| as byte] + l) + more + post
    ensures buf[|pre|] == |l| as byte && buf[|pre| + 1..|pre| + 1 + |l|] == l
  {
  }

  lemma {:induction false} LabelRead(buf: Text, i: nat, l: Text, rest: seq<Text>)
    requires 0 < |l| <= MAX_LABEL && i + 1 + |l| <= |buf| && buf[i] == |l| as byte && buf[i + 1..i + 1 + |l|] == l
    requires WireLabels(buf, i + 1 + |l|, 0) == Some(rest)
    ensures WireLabels(buf, i, 0) == Some([l] + rest) && EndOf(buf, i) == EndOf(buf, i + 1 + |l|)
  {
  }

  lemma {:induction false} RootInWire(buf: Text, off: nat, pre: Text, post: Text)
    requires buf == pre + [0] + post && off == |pre|
    ensures WireLabels(buf, off, 0) == Some([]) && EndOf(buf, off) == off + 1
  {
    assert buf[off] == 0;
  }

  /** The first label of a packed name, and what comes after it. */
  lemma {:induction false} FirstLabelInWire(buf: Text, pre: Text, ls: seq<Text>, post: Text) returns (pre': Text)
    requires GoodLabels(ls) && ls != [] && buf == pre + Wire(ls) + post
    ensures |pre'| == |pre| + 1 + |ls[0]| && buf == pre' + Wire(ls[1..]) + post
    ensures buf[|pre|] == |ls[0]| as byte && buf[|pre| + 1..|pre| + 1 + |ls[0]|] == ls[0]
  {
    pre' := pre + ([|ls[0]| as byte] + ls[0]);
    LabelInWire(buf, pre, ls[0], Wire(ls[1..]), post);
  }

  lemma {:induction false} FirstLabelRead(buf: Text, off: nat, ls: seq<Text>, next: nat)
    requires GoodLabels(ls) && ls != [] && next == off + 1 + |ls[0]| <= |buf|
    requires buf[off] == |ls[0]| as byte && buf[off + 1..off + 1 + |ls[0]|] == ls[0]
    requires WireLabels(buf, next, 0) == Some(ls[1..]) && EndOf(buf, next) == next + WireSize(ls[1..])
    ensures WireLabels(buf, off, 0) == Some(ls) && EndOf(buf, off) == off + WireSize(ls)
  {
    LabelRead(buf, off, ls[0], ls[1..]);
    assert [ls[0]] + ls[1..] == ls;
  }

  lemma {:induction false} WireLabelsOfWire(buf: Text, off: nat, pre: Text, ls: seq<Text>, post: Text)
    requires GoodLabels(ls) && buf == pre + Wire(ls) + post && off == |pre|
    ensures WireLabels(buf, off, 0) == Some(ls) && EndOf(buf, off) == off + WireSize(ls)
    decreases |ls|
  {
    if ls == [] {
      RootInWire(buf, off, pre, post);
    } else {
      var pre' := FirstLabelInWire(buf, pre, ls, post);
      var next := |pre'|;
      WireLabelsOfWire(buf, next, pre', ls[1..], post);
      FirstLabelRead(buf, off, ls, next);
    }
  }

  lemma {:induction false} ParseWire(buf: Text, pre: Text, ls: seq<Text>, post: Text)
    requires GoodLabels(ls) && WireSize(ls) <= MAX_NAME && buf == pre + Wire(ls) + post
    ensures ParseName(buf, |pre|) == Some((Render(ls), |pre| + WireSize(ls)))
  {
    WireLabelsOfWire(buf, |pre|, pre, ls, post);
    ParseNameMeans(buf, |pre|);
  }

  lemma {:induction false} PackedForm(name: Text)
    requires Packable(name)
    ensures Render(NameLabels(name)) == Canonical(name)
    ensures |Wire(NameLabels(name))| == WireSize(NameLabels(name)) <= MAX_NAME
  {
    var ls := NameLabels(name);
    WireLength(ls);
    if ls != [] {
      JoinLabels(TrimDot(name));
      JoinLength(ls);
    }
  }

  /** A packed name parses back, at any position in any buffer, to its canonical form. */
  lemma {:induction false} ParsePacked(buf: Text, pre: Text, name: Text, w: Text, post: Text)
    requires PackName(name) == Some(w) && buf == pre + w + post
    ensures ParseName(buf, |pre|) == Some((Canonical(name), |pre| + |w|))
    ensures |w| <= MAX_NAME
  {
    PackedForm(name);
    ParseWire(buf, pre, NameLabels(name), post);
  }
}
