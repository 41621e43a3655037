/** Record data: text strings, quoted strings, embedded names and the SOA. */
module RData {
  import opened Bytes
  import opened Names
  import opened WireName
  import opened Message
  import T = Tables

  // ---- TXT ---------------------------------------------------------------------------

  const CHUNK := 255

  /** One text part as length-prefixed strings of at most 255 octets. */
  function PartBytes(p: Text): Text {
    if |p| > CHUNK then [CHUNK as byte] + p[..CHUNK] + PartBytes(p[CHUNK..]) else [|p| as byte] + p
  }

  function PartsBytes(ps: seq<Text>): Text {
    if ps == [] then [] else PartBytes(ps[0]) + PartsBytes(ps[1..])
  }

  function TxtBytes(ps: seq<Text>): Text {
    if PartsBytes(ps) == [] then [0] else PartsBytes(ps)
  }

  /** TXT data is never empty: no strings at all are written as one empty string. */
  lemma {:induction false} TxtNeverEmpty(ps: seq<Text>)
    ensures |TxtBytes(ps)| >= 1 && TxtBytes([]) == [0] && TxtBytes([[]]) == [0]
  {
    var none: Text := [];
    assert [none][1..] == [];
    assert PartsBytes([none]) == PartBytes(none) + [];
  }

  lemma {:induction false} PartsSnoc(ps: seq<Text>, p: Text)
    ensures PartsBytes(ps + [p]) == PartsBytes(ps) + PartBytes(p)
  {
    if ps == [] {
      assert ps + [p] == [p] && [p][1..] == [];
    } else {
      assert (ps + [p])[1..] == ps[1..] + [p];
      PartsSnoc(ps[1..], p);
    }
  }

  /** The chunking loop. */
  method AppendPart(buf: Text, part: Text) returns (out: Text)
    ensures out == buf + PartBytes(part)
  {
    out := buf;
    var p := part;
    while |p| > CHUNK
      invariant out + PartBytes(p) == buf + PartBytes(part)
    {
      ghost var before, q := out, p;
      out := out + [CHUNK as byte] + p[..CHUNK];
      p := p[CHUNK..];
      assert out + PartBytes(p) == before + PartBytes(q);
    }
    out := out + [|p| as byte] + p;
  }

  method BuildTxt(parts: seq<Text>) returns (buf: Text)
    ensures buf == TxtBytes(parts)
  {
    buf := [];
    for i := 0 to |parts|
      invariant buf == PartsBytes(parts[..i])
    {
      assert parts[..i + 1] == parts[..i] + [parts[i]];
      PartsSnoc(parts[..i], parts[i]);
      buf := AppendPart(buf, parts[i]);
    }
    assert parts[..|parts|] == parts;
    if |buf| == 0 {
      buf := [0];
    }
  }

  /** The octets a part takes: its own and one more for each string it is cut into. */
  lemma {:induction false} PartSize(p: Text)
    ensures |PartBytes(p)| == |p| + if |p| == 0 then 1 else (|p| + CHUNK - 1) / CHUNK
  {
    if |p| > CHUNK {
      PartSize(p[CHUNK..]);
      assert (|p| + CHUNK - 1) / CHUNK == (|p| - CHUNK + CHUNK - 1) / CHUNK + 1;
    }
  }

  /** Reading length-prefixed strings and joining their contents. */
  function TxtContent(buf: Text): Option<Text> {
    if buf == [] then Some([])
    else if 1 + buf[0] > |buf| then None
    else
      var rest := TxtContent(buf[1 + buf[0]..]);
      if rest.None? then None else Some(buf[1..1 + buf[0]] + rest.value)
  }

  lemma {:induction false} FirstString(p: Text)
    ensures var b := PartBytes(p);
            var len := if |p| > 255 then 255 else |p|;
            && 1 + len <= |b| && b[0] == len && b[1..1 + len] == p[..len]
            && (|p| > 255 ==> b[256..] == PartBytes(p[255..]))
  {
    var b := PartBytes(p);
    if |p| > 255 {
      var rest := PartBytes(p[255..]);
      assert b == ([255] + p[..255]) + rest;
    } else {
      assert b == [|p| as byte] + p;
    }
  }

  /** The octets of `b` from `i` on are those of `p` from `j` on, `len` of them with the length first. */
  predicate StringAt(b: Text, i: nat, p: Text, j: nat, len: nat) {
    i + 1 + len <= |b| && j + len <= |p| && len <= 255 && b[i] == len && b[i + 1..i + 1 + len] == p[j..j + len]
  }

  lemma {:induction false} StringShifts(b: Text, i: nat, p: Text, j: nat, len: nat)
    requires |b| >= 256 && |p| >= 255 && i >= 256 && j >= 255 && StringAt(b[256..], i - 256, p[255..], j - 255, len)
    ensures StringAt(b, i, p, j, len)
  {
    assert b[256..][i - 255..i - 255 + len] == b[i + 1..i + 1 + len];
    assert p[255..][j - 255..j - 255 + len] == p[j..j + len];
  }

  lemma {:induction false} StringOctetsAt(b: Text, p: Text, k: nat, i: nat, j: nat, len: nat)
    requires b == PartBytes(p) && i == 256 * k && j == 255 * k
    requires (j < |p| || k == 0) && len == if |p| - j > 255 then 255 else |p| - j
    ensures StringAt(b, i, p, j, len)
    decreases k
  {
    if k == 0 {
      FirstString(p);
    } else {
      var b', p' := RestOfStrings(b, p);
      StringOctetsAt(b', p', k - 1, i - 256, j - 255, len);
      StringShifts(b, i, p, j, len);
    }
  }

  lemma {:induction false} RestOfStrings(b: Text, p: Text) returns (b': Text, p': Text)
    requires b == PartBytes(p) && |p| > 255
    ensures |b| >= 256 && b' == b[256..] && p' == p[255..] && b' == PartBytes(p')
  {
    FirstString(p);
    b', p' := b[256..], p[255..];
  }

  /** The strings of a part, octet by octet: the `k`th starts at octet 256 k with its length, 255 but for
      the last, and goes on with the octets of the part from 255 k. */
  lemma {:induction false} StringOctets(p: Text, k: nat)
    requires 255 * k < |p| || k == 0
    ensures StringAt(PartBytes(p), 256 * k, p, 255 * k, if |p| - 255 * k > 255 then 255 else |p| - 255 * k)
  {
    StringOctetsAt(PartBytes(p), p, k, 256 * k, 255 * k, if |p| - 255 * k > 255 then 255 else |p| - 255 * k);
  }

  function Concat(ps: seq<Text>): Text {
    if ps == [] then [] else ps[0] + Concat(ps[1..])
  }

  lemma {:induction false} OneString(s: Text, post: Text)
    requires |s| <= CHUNK
    ensures TxtContent([|s| as byte] + s + post) ==
            if TxtContent(post).None? then None else Some(s + TxtContent(post).value)
  {
  }

  lemma {:induction false} FirstChunk(p: Text, post: Text)
    requires |p| > CHUNK
    ensures PartBytes(p) + post == [|p[..CHUNK]| as byte] + p[..CHUNK] + (PartBytes(p[CHUNK..]) + post)
  {
  }

  lemma {:induction false} PartContent(p: Text, post: Text)
    requires TxtContent(post).Some?
    ensures TxtContent(PartBytes(p) + post) == Some(p + TxtContent(post).value)
  {
    if |p| > CHUNK {
      PartContent(p[CHUNK..], post);
      OneString(p[..CHUNK], PartBytes(p[CHUNK..]) + post);
      FirstChunk(p, post);
      Assoc3(p[..CHUNK], p[CHUNK..], TxtContent(post).value);
      assert p == p[..CHUNK] + p[CHUNK..];
    } else {
      OneString(p, post);
    }
  }

  lemma {:induction false} PartsContent(ps: seq<Text>)
    ensures TxtContent(PartsBytes(ps)) == Some(Concat(ps))
  {
    if ps != [] {
      PartsContent(ps[1..]);
      PartContent(ps[0], PartsBytes(ps[1..]));
    }
  }

  /** Encoding text loses nothing: what a reader joins is what the parts joined to. */
  lemma {:induction false} TxtRoundTrip(ps: seq<Text>)
    ensures TxtContent(TxtBytes(ps)) == Some(Concat(ps))
  {
    PartsContent(ps);
    if PartsBytes(ps) == [] {
      var none: Text := [];
      OneString(none, none);
      assert [|none| as byte] + none + none == [0];
      assert TxtContent(none) == Some(none) && none + none == Concat(ps);
    }
  }

  // ---- quoted strings ----------------------------------------------------------------

  predicate IsDigit(c: byte) {
    48 <= c <= 57
  }

  function Decimal(a: byte, b: byte, c: byte): int {
    (a as int - 48) * 100 + (b as int - 48) * 10 + (c as int - 48)
  }

  /** The scanning loop of `readQuoted` from index `i`, with `text` read so far. */
  function ReadFrom(s: Text, i: nat, text: Text): Option<(Text, Text)>
    decreases |s| - i
  {
    if i >= |s| then None
    else if s[i] == QUOTE then Some((text, s[i + 1..]))
    else if s[i] == BACKSLASH && i + 1 < |s| then
      if IsDigit(s[i + 1]) && i + 3 < |s| && IsDigit(s[i + 2]) && IsDigit(s[i + 3]) then
        var v := Decimal(s[i + 1], s[i + 2], s[i + 3]);
        if v > 255 then None else ReadFrom(s, i + 4, text + [v])
      else ReadFrom(s, i + 2, text + [s[i + 1]])
    else ReadFrom(s, i + 1, text + [s[i]])
  }

  function ReadQuoted(s: Text): Option<(Text, Text)> {
    if s == [] || s[0] != QUOTE then None else ReadFrom(s, 1, [])
  }

  method ScanQuoted(s: Text) returns (r: Option<(Text, Text)>)
    ensures r == ReadQuoted(s)
  {
    if s == [] || s[0] != QUOTE {
      return None;
    }
    var text: Text := [];
    var i: nat := 1;
    while i < |s|
      invariant ReadQuoted(s) == ReadFrom(s, i, text)
      decreases |s| - i
    {
      var c := s[i];
      if c == QUOTE {
        return Some((text, s[i + 1..]));
      } else if c == BACKSLASH && i + 1 < |s| {
        i := i + 1;
        if IsDigit(s[i]) && i + 2 < |s| && IsDigit(s[i + 1]) && IsDigit(s[i + 2]) {
          var v := Decimal(s[i], s[i + 1], s[i + 2]);
          if v > 255 {
            return None;
          }
          text := text + [v];
          i := i + 2;
        } else {
          text := text + [s[i]];
        }
      } else {
        text := text + [c];
      }
      i := i + 1;
    }
    return None;
  }

  /** One octet in the master-file form of section 5.1 of RFC 1035. */
  function Escape(b: byte): Text {
    if b == QUOTE || b == BACKSLASH then [BACKSLASH, b]
    else if 32 <= b < 127 then [b]
    else [BACKSLASH, 48 + b / 100, 48 + b / 10 % 10, 48 + b % 10]
  }

  function EscapeAll(t: Text): Text {
    if t == [] then [] else Escape(t[0]) + EscapeAll(t[1..])
  }

  function Quote(t: Text): Text {
    [QUOTE] + EscapeAll(t) + [QUOTE]
  }

  lemma {:induction false} ReadEscaped(s: Text, i: nat, text: Text, b: byte)
    requires i + |Escape(b)| < |s| && s[i..i + |Escape(b)|] == Escape(b)
    ensures ReadFrom(s, i, text) == ReadFrom(s, i + |Escape(b)|, text + [b])
  {
    var e := Escape(b);
    assert forall k :: 0 <= k < |e| ==> s[i + k] == s[i..i + |e|][k] == e[k];
    if |e| == 4 {
      assert s[i] == e[0] && s[i + 1] == e[1] && s[i + 2] == e[2] && s[i + 3] == e[3];
      ReadDecimal(s, i, text, b);
    } else if |e| == 2 {
      assert s[i] == e[0] && s[i + 1] == e[1];
    } else {
      assert s[i] == e[0];
    }
  }

  lemma {:induction false} ReadDecimal(s: Text, i: nat, text: Text, b: byte)
    requires i + 4 < |s| && s[i] == BACKSLASH
    requires s[i + 1] == 48 + b / 100 && s[i + 2] == 48 + b / 10 % 10 && s[i + 3] == 48 + b % 10
    ensures ReadFrom(s, i, text) == ReadFrom(s, i + 4, text + [b])
  {
    assert Decimal(s[i + 1], s[i + 2], s[i + 3]) == b;
  }

  lemma {:induction false} SplitAt(s: Text, i: nat, e: Text, tail: Text, j: nat)
    requires i <= |s| && s[i..] == e + tail && j == i + |e|
    ensures j <= |s| && s[i..j] == e && s[j..] == tail
  {
  }

  lemma {:induction false} ReadEnd(s: Text, i: nat, text: Text, rest: Text)
    requires i <= |s| && s[i..] == [QUOTE] + rest
    ensures ReadFrom(s, i, text) == Some((text, rest))
  {
    SplitAt(s, i, [QUOTE], rest, i + 1);
    assert s[i] == s[i..i + 1][0];
  }

  lemma {:induction false} EscapeAt(s: Text, i: nat, t: Text, end: Text, j: nat)
    requires t != [] && i <= |s| && s[i..] == EscapeAll(t) + end && j == i + |Escape(t[0])|
    ensures j <= |s| && s[i..j] == Escape(t[0]) && s[j..] == EscapeAll(t[1..]) + end
  {
    var e := Escape(t[0]);
    Assoc3(e, EscapeAll(t[1..]), end);
    SplitAt(s, i, e, EscapeAll(t[1..]) + end, j);
  }

  lemma {:induction false} ReadEscapedAll(s: Text, i: nat, text: Text, t: Text, rest: Text)
    requires i <= |s| && s[i..] == EscapeAll(t) + ([QUOTE] + rest)
    ensures ReadFrom(s, i, text) == Some((text + t, rest))
    decreases |t|
  {
    if t == [] {
      ReadLast(s, i, text, t, rest);
    } else {
      var j := i + |Escape(t[0])|;
      EscapeAt(s, i, t, [QUOTE] + rest, j);
      ReadEscaped(s, i, text, t[0]);
      ReadEscapedAll(s, j, text + [t[0]], t[1..], rest);
      HeadTail(text, t);
    }
  }

  lemma {:induction false} ReadLast(s: Text, i: nat, text: Text, t: Text, rest: Text)
    requires t == [] && i <= |s| && s[i..] == EscapeAll(t) + ([QUOTE] + rest)
    ensures ReadFrom(s, i, text) == Some((text + t, rest))
  {
    assert EscapeAll(t) + ([QUOTE] + rest) == [QUOTE] + rest;
    ReadEnd(s, i, text, rest);
    assert text + t == text;
  }

  lemma {:induction false} HeadTail(text: Text, t: Text)
    requires t != []
    ensures text + [t[0]] + t[1..] == text + t
  {
  }

  /** Reading inverts quoting for any octets, and returns exactly what follows. */
  lemma {:induction false} ReadQuote(t: Text, rest: Text)
    ensures ReadQuoted(Quote(t) + rest) == Some((t, rest))
  {
    var s := Quote(t) + rest;
    assert s[1..] == EscapeAll(t) + ([QUOTE] + rest);
    ReadEscapedAll(s, 1, [], t, rest);
    assert [] + t == t;
  }

  /** Read as the standard has it: `"a\"\\\066" c` is the string `a"\B` and leaves ` c`; a number over
      255, or no closing quote, is an error. */
  lemma {:induction false} QuotedExamples()
    ensures ReadQuoted([34, 97, 92, 34, 92, 92, 92, 48, 54, 54, 34, 32, 99]) == Some(([97, 34, 92, 66], [32, 99]))
    ensures ReadQuoted([34, 92, 50, 53, 54, 34]) == None && ReadQuoted([34, 97]) == None && ReadQuoted([97]) == None
  {
    var s: Text := [34, 97, 92, 34, 92, 92, 92, 48, 54, 54, 34, 32, 99];
    ReadEscaped(s, 1, [], 97);
    ReadEscaped(s, 2, [97], 34);
    ReadEscaped(s, 4, [97, 34], 92);
    ReadDecimal(s, 6, [97, 34, 92], 66);
    assert s[10..] == [34] + [32, 99];
    ReadEnd(s, 10, [97, 34, 92, 66], [32, 99]);
    assert [] + [97] == [97] && [97] + [34] == [97, 34] && [97, 34] + [92] == [97, 34, 92];
    assert [97, 34, 92] + [66] == [97, 34, 92, 66];
    assert ReadFrom(s, 1, []) == Some(([97, 34, 92, 66], [32, 99]));
  }

  /** `parseQuotedStrings`: strings one after another, white space between them dropped. */
  function ParseStrings(text: Text): Option<seq<Text>>
    decreases |text|
  {
    var rest := TrimSpace(text);
    if rest == [] then Some([])
    else
      var r := ReadQuoted(rest);
      if r.None? then None
      else
        ReadShrinks(text, rest);
        var more := ParseStrings(r.value.1);
        if more.None? then None else Some([r.value.0] + more.value)
  }

  lemma {:induction false} ReadFromShrinks(s: Text, i: nat, text: Text)
    requires ReadFrom(s, i, text).Some?
    ensures |ReadFrom(s, i, text).value.1| < |s|
    decreases |s| - i
  {
    if s[i] != QUOTE {
      if s[i] == BACKSLASH && i + 1 < |s| {
        if IsDigit(s[i + 1]) && i + 3 < |s| && IsDigit(s[i + 2]) && IsDigit(s[i + 3]) {
          ReadFromShrinks(s, i + 4, text + [Decimal(s[i + 1], s[i + 2], s[i + 3])]);
        } else {
          ReadFromShrinks(s, i + 2, text + [s[i + 1]]);
        }
      } else {
        ReadFromShrinks(s, i + 1, text + [s[i]]);
      }
    }
  }

  lemma {:induction false} TrimRightSize(s: Text)
    ensures |TrimRight(s)| <= |s|
  {
    if s != [] && IsSpace(s[|s| - 1]) { TrimRightSize(s[..|s| - 1]); }
  }

  lemma {:induction false} ReadShrinks(text: Text, rest: Text)
    requires rest == TrimSpace(text) && ReadQuoted(rest).Some?
    ensures |ReadQuoted(rest).value.1| < |text|
  {
    TrimLeftShrinks(text);
    TrimRightSize(TrimLeft(text));
    ReadFromShrinks(rest, 1, []);
  }

  method ScanStrings(text: Text) returns (out: Option<seq<Text>>)
    ensures out == ParseStrings(text)
  {
    var got: seq<Text> := [];
    var rest := text;
    ghost var all := ParseStrings(text);
    if all.Some? { assert got + all.value == all.value; }
    while TrimSpace(rest) != []
      invariant all == if ParseStrings(rest).None? then None else Some(got + ParseStrings(rest).value)
      decreases |rest|
    {
      var trimmed := TrimSpace(rest);
      var r := ScanQuoted(trimmed);
      if r.None? {
        return None;
      }
      ReadShrinks(rest, trimmed);
      ghost var more := ParseStrings(r.value.1);
      if more.Some? { assert got + ([r.value.0] + more.value) == (got + [r.value.0]) + more.value; }
      got := got + [r.value.0];
      rest := r.value.1;
    }
    assert got + [] == got;
    return Some(got);
  }

  /** Quoted strings separated by single spaces. */
  function QuoteAll(ts: seq<Text>): Text {
    if ts == [] then [] else if |ts| == 1 then Quote(ts[0]) else Quote(ts[0]) + [32] + QuoteAll(ts[1..])
  }

  lemma {:induction false} QuoteAllEnds(ts: seq<Text>)
    requires ts != []
    ensures var q := QuoteAll(ts); q != [] && q[0] == QUOTE && q[|q| - 1] == QUOTE
  {
    if |ts| > 1 { QuoteAllEnds(ts[1..]); }
  }

  lemma {:induction false} TrimLeadingSpace(s: Text)
    requires s != [] && !IsSpace(s[0]) && !IsSpace(s[|s| - 1])
    ensures TrimSpace([32] + s) == s
  {
    assert ([32] + s)[1..] == s;
    TrimSpaceFixed(s);
  }

  lemma {:induction false} ParseStringsTrimmed(a: Text, b: Text)
    requires TrimSpace(a) == TrimSpace(b)
    ensures ParseStrings(a) == ParseStrings(b)
  {
  }

  /** Writing any list of octet strings in quoted form and scanning it gives the list back. */
  lemma {:induction false} StringsRoundTrip(ts: seq<Text>)
    ensures ParseStrings(QuoteAll(ts)) == Some(ts)
  {
    if ts != [] {
      var q := QuoteAll(ts);
      QuoteAllEnds(ts);
      TrimSpaceFixed(q);
      if |ts| == 1 {
        assert q == Quote(ts[0]) + [];
        ReadQuote(ts[0], []);
        assert ts == [ts[0]] + [];
      } else {
        var more := QuoteAll(ts[1..]);
        assert q == Quote(ts[0]) + ([32] + more);
        ReadQuote(ts[0], [32] + more);
        QuoteAllEnds(ts[1..]);
        TrimLeadingSpace(more);
        TrimSpaceFixed(more);
        StringsRoundTrip(ts[1..]);
        ParseStringsTrimmed([32] + more, more);
        assert ts == [ts[0]] + ts[1..];
      }
    }
  }

  /** TXT data from its text form: quoted strings, or the whole text as one part. */
  function TxtFromText(text: Text): Option<Text> {
    if HasPrefix(text, [QUOTE]) then
      var ps := ParseStrings(text);
      if ps.None? then None else Some(TxtBytes(ps.value))
    else Some(TxtBytes([text]))
  }

  /** From text form to wire and back, no octet is lost, whichever form the text takes. */
  lemma {:induction false} TxtTextRoundTrip(ts: seq<Text>, plain: Text)
    ensures ts != [] ==>
              TxtFromText(QuoteAll(ts)).Some? && TxtContent(TxtFromText(QuoteAll(ts)).value) == Some(Concat(ts))
    ensures !HasPrefix(plain, [QUOTE]) ==>
              TxtFromText(plain).Some? && TxtContent(TxtFromText(plain).value) == Some(plain)
  {
    if ts != [] {
      QuoteAllEnds(ts);
      var q := QuoteAll(ts);
      assert q[..1] == [QUOTE];
      StringsRoundTrip(ts);
      TxtRoundTrip(ts);
    }
    TxtRoundTrip([plain]);
    assert [plain][1..] == [];
    assert Concat([plain]) == plain;
  }

  // ---- embedded names ----------------------------------------------------------------

  /** `RDataNames`: the domain name inside the data, or nothing. */
  function TargetName(rtype: u16, rdata: Text): Text {
    var at: nat := if rtype in {T.TYPE_NS, T.TYPE_CNAME, T.TYPE_DNAME, T.TYPE_PTR} then 0
                   else if rtype == T.TYPE_MX then 2
                   else if rtype == T.TYPE_SRV then 6
                   else |rdata|;
    var p := ParseName(rdata, at);
    if p.None? then [] else p.value.0
  }

  /** A packed target, after whatever fixed fields its type puts in front, reads back in
      canonical form. */
  lemma {:induction false} TargetRoundTrip(rtype: u16, fields: Text, target: Text)
    requires Packable(target)
    requires |fields| == if rtype in {T.TYPE_NS, T.TYPE_CNAME, T.TYPE_DNAME, T.TYPE_PTR} then 0
                         else if rtype == T.TYPE_MX then 2 else 6
    requires rtype in {T.TYPE_NS, T.TYPE_CNAME, T.TYPE_DNAME, T.TYPE_PTR, T.TYPE_MX, T.TYPE_SRV}
    ensures TargetName(rtype, fields + PackName(target).value) == Canonical(target)
  {
    var w := PackName(target).value;
    assert fields + w == fields + w + [];
    ParsePacked(fields + w, fields, target, w, []);
  }

  // ---- SOA ---------------------------------------------------------------------------

  function Numbers(ns: seq<u32>): Text {
    if ns == [] then [] else Numbers(ns[..|ns| - 1]) + U32(ns[|ns| - 1])
  }

  function SoaBytes(primary: Text, admin: Text, numbers: seq<u32>): Option<Text> {
    if Packable(primary) && Packable(admin) then
      Some(PackName(primary).value + (PackName(admin).value + Numbers(numbers)))
    else None
  }

  /** Two names and the five numbers, appended one after another. */
  method BuildSoa(primary: Text, admin: Text, serial: u32, refresh: u32, retry: u32, expire: u32, minimum: u32)
    returns (r: Option<Text>)
    ensures r == SoaBytes(primary, admin, [serial, refresh, retry, expire, minimum])
  {
    var buf, ok := AppendPacked([], primary);
    if !ok {
      return None;
    }
    buf, ok := AppendPacked(buf, admin);
    if !ok {
      return None;
    }
    var numbers: seq<u32> := [serial, refresh, retry, expire, minimum];
    ghost var names := buf;
    for i := 0 to |numbers|
      invariant buf == names + Numbers(numbers[..i])
    {
      assert numbers[..i + 1][..i] == numbers[..i];
      Assoc3(names, Numbers(numbers[..i]), U32(numbers[i]));
      buf := buf + U32(numbers[i]);
    }
    assert numbers[..|numbers|] == numbers;
    assert [] + PackName(primary).value == PackName(primary).value;
    Assoc3(PackName(primary).value, PackName(admin).value, Numbers(numbers));
    return Some(buf);
  }

  lemma {:induction false} NameBetween(w: Text, pre: Text, name: Text, p: Text, post: Text, start: nat, end: nat)
    requires PackName(name) == Some(p) && w == pre + (p + post) && start == |pre| && end == start + |p|
    ensures ParseName(w, start) == Some((Canonical(name), end))
  {
    Assoc3(pre, p, post);
    ParsePacked(w, pre, name, p, post);
  }

  lemma {:induction false} TwoNames(w: Text, primary: Text, p: Text, admin: Text, a: Text, nums: Text, mid: nat,
                                    end: nat)
    requires PackName(primary) == Some(p) && PackName(admin) == Some(a) && w == p + (a + nums)
    requires mid == |p| && end == mid + |a|
    ensures ParseName(w, 0) == Some((Canonical(primary), mid)) && ParseName(w, mid) == Some((Canonical(admin), end))
  {
    NameBetween(w, p, admin, a, nums, mid, end);
    assert [] + w == w;
    NameBetween(w, [], primary, p, a + nums, 0, mid);
  }

  lemma {:induction false} NumberAt(ns: seq<u32>, k: nat)
    requires k < |ns|
    ensures |Numbers(ns)| == 4 * |ns| && Numbers(ns)[4 * k..4 * k + 4] == U32(ns[k])
  {
    var init := ns[..|ns| - 1];
    if init != [] { NumberAt(init, if k < |init| then k else 0); }
    if k < |init| { assert Numbers(ns)[4 * k..4 * k + 4] == Numbers(init)[4 * k..4 * k + 4]; }
  }

  /** Each number is read back at its place. */
  lemma {:induction false} NumberAfter(w: Text, head: Text, ns: seq<u32>, k: nat, at: nat)
    requires w == head + Numbers(ns) && k < |ns| && at == |head| + 4 * k
    ensures |w| == |head| + 4 * |ns| && Get32(w, at) == ns[k]
  {
    NumberAt(ns, k);
    assert w[at..at + 4] == Numbers(ns)[4 * k..4 * k + 4];
    Get32Of(w, at, ns[k]);
  }

  /** The two names of a packed SOA, and each of its numbers, read back. */
  lemma {:induction false} SoaRoundTrip(primary: Text, admin: Text, numbers: seq<u32>, w: Text, mid: nat, end: nat,
                                        k: nat)
    requires SoaBytes(primary, admin, numbers) == Some(w) && k < |numbers|
    requires mid == |PackName(primary).value| && end == mid + |PackName(admin).value|
    ensures ParseName(w, 0) == Some((Canonical(primary), mid)) && ParseName(w, mid) == Some((Canonical(admin), end))
    ensures |w| == end + 4 * |numbers| && Get32(w, end + 4 * k) == numbers[k]
  {
    var p, a := PackName(primary).value, PackName(admin).value;
    TwoNames(w, primary, p, admin, a, Numbers(numbers), mid, end);
    Assoc3(p, a, Numbers(numbers));
    NumberAfter(w, p + a, numbers, k, end + 4 * k);
  }

  lemma {:induction false} SameShape(a: seq<Text>, b: seq<Text>, c: seq<Text>, d: seq<Text>, x: Text, y: Text)
    requires a == [x] + c && b == [y] + d && |x| == |y| && |c| == |d| && forall i :: 0 <= i < |d| ==> |c[i]| == |d[i]|
    ensures |a| == |b| && forall i :: 0 <= i < |b| ==> |a[i]| == |b[i]|
  {
  }

  lemma {:induction false} LowerStep(s: Text, i: nat)
    requires IndexDot(s) == i
    ensures Labels(s) == [s[..i]] + Labels(s[i + 1..])
    ensures Labels(Lower(s)) == [Lower(s[..i])] + Labels(Lower(s[i + 1..]))
  {
    LabelsStep(s, i);
    LabelsStep(Lower(s), i);
    assert Lower(s)[i + 1..] == Lower(s[i + 1..]) && Lower(s)[..i] == Lower(s[..i]);
  }

  lemma {:induction false} LowerKeepsLabels(s: Text)
    ensures |Labels(Lower(s))| == |Labels(s)|
    ensures forall i :: 0 <= i < |Labels(s)| ==> |Labels(Lower(s))[i]| == |Labels(s)[i]|
    decreases |s|
  {
    var i := IndexDot(s);
    if i < 0 {
      assert forall k :: 0 <= k < |s| ==> Lower(s)[k] != DOT;
    } else {
      LowerStep(s, i);
      LowerKeepsLabels(s[i + 1..]);
      SameShape(Labels(Lower(s)), Labels(s), Labels(Lower(s[i + 1..])), Labels(s[i + 1..]), Lower(s[..i]), s[..i]);
    }
  }

  /** Case does not decide whether a name can be packed, so what the service validated in lower
      case the server can pack as stored. */
  lemma {:induction false} PackableAnyCase(name: Text)
    ensures Packable(Lower(name)) <==> Packable(name)
  {
    assert TrimDot(Lower(name)) == Lower(TrimDot(name));
    LowerKeepsLabels(TrimDot(name));
    var n := TrimDot(name);
    assert GoodLabels(Labels(Lower(n))) <==> GoodLabels(Labels(n));
  }
}
