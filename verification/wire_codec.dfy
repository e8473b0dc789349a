/**
 * The rover's Nordic-UART wire format as the app reads and writes it: the `META:` header
 * line, the binary `C`,`H`,seqHi,seqLo,payload chunk frame, the newline terminator added
 * to outgoing multi-character commands, the direction echo, and the fixed-priority
 * classification of an incoming text line into at most one photo event.
 */
module WireCodec {
  import opened Wrappers
  import opened JsRuntime

  type byte = x: int | 0 <= x < 256

  /** The bluetooth plugin's `dataViewToText`: one UTF-16 code unit per byte. */
  function BytesToText(b: seq<byte>): (t: string)
    ensures |t| == |b|
    ensures forall k :: 0 <= k < |b| ==> t[k] as int == b[k]
  {
    seq(|b|, k requires 0 <= k < |b| => b[k] as char)
  }

  // ---------------------------------------------------------------------------------
  // META line

  /** Image header: byte size and chunk count, optionally width and height. */
  datatype Meta = Meta(size: nat, chunks: nat, width: Option<nat>, height: Option<nat>)

  /**
   * End of the digit run of a field `tag<digits>` that starts at `p`; `None` when the
   * tag is not there or no digit follows it. The run is maximal: `\d+` is greedy and
   * nothing after it in the header pattern can force it to give digits back.
   */
  function FieldEnd(s: string, p: nat, tag: string): Option<nat>
    requires p <= |s|
  {
    if p + |tag| <= |s| && s[p..p + |tag|] == tag then
      var end := Span(s, p + |tag|, IsDigit);
      if end == p + |tag| then None else Some(end)
    else
      None
  }

  /** A field is found exactly when the tag is there with a digit after it, and its digit run is maximal. */
  lemma FieldEndSpec(s: string, p: nat, tag: string)
    requires p <= |s|
    ensures var e := FieldEnd(s, p, tag);
            (e.Some? ==> p + |tag| < e.value <= |s| && s[p..p + |tag|] == tag) &&
            (e.Some? ==> forall k :: p + |tag| <= k < e.value ==> IsDigit(s[k])) &&
            (e.Some? ==> e.value == |s| || !IsDigit(s[e.value])) &&
            (e.None? ==> !(p + |tag| < |s| && s[p..p + |tag|] == tag && IsDigit(s[p + |tag|])))
  {
  }

  /** Decimal value of the digits of a field found by `FieldEnd`. */
  function FieldValue(s: string, p: nat, tag: string, e: nat): nat
    requires p + |tag| <= e <= |s|
    requires forall k :: p + |tag| <= k < e ==> IsDigit(s[k])
  {
    DecimalValue(s[p + |tag|..e])
  }

  /**
   * The header pattern anchored at `i`: `META:size=(\d+),chunks=(\d+)`, then, when
   * `withSeq`, an optional `,seq=(\d+)` whose value is dropped, then optional `,w=(\d+)`
   * and `,h=(\d+)`. A present capture is a non-empty digit string, so it is truthy and
   * goes through `parseInt`.
   */
  function MatchAt(s: string, i: nat, withSeq: bool): (r: Option<Meta>)
    requires i <= |s|
  {
    match FieldEnd(s, i, "META:size=")
    case None => None
    case Some(e1) =>
      FieldEndSpec(s, i, "META:size=");
      match FieldEnd(s, e1, ",chunks=")
      case None => None
      case Some(e2) =>
        FieldEndSpec(s, e1, ",chunks=");
        var p3 := if withSeq then After(s, e2, ",seq=") else e2;
        var p4 := After(s, p3, ",w=");
        Some(Meta(FieldValue(s, i, "META:size=", e1), FieldValue(s, e1, ",chunks=", e2),
                  OptField(s, p3, ",w="), OptField(s, p4, ",h=")))
  }

  /** An optional group `(?:tag(\d+))?` at `p`: the captured value when the field is there. */
  function OptField(s: string, p: nat, tag: string): Option<nat>
    requires p <= |s|
  {
    match FieldEnd(s, p, tag)
    case None => None
    case Some(e) => FieldEndSpec(s, p, tag); Some(FieldValue(s, p, tag, e))
  }

  /** Where matching continues after an optional group at `p`: past the field, or at `p` when it is absent. */
  function After(s: string, p: nat, tag: string): (q: nat)
    requires p <= |s|
    ensures p <= q <= |s|
  {
    FieldEndSpec(s, p, tag);
    FieldEnd(s, p, tag).GetOr(p)
  }

  /** Unanchored `String.prototype.match`: the leftmost position where the pattern matches. */
  function SearchMeta(s: string, i: nat, withSeq: bool): Option<Meta>
    requires i <= |s|
    decreases |s| - i
  {
    var here := MatchAt(s, i, withSeq);
    if here.Some? then here
    else if i == |s| then None
    else SearchMeta(s, i + 1, withSeq)
  }

  /** What the search finds is the match at some position from `i` on, and no position before it matches. */
  lemma {:induction false} SearchMetaLeftmost(s: string, i: nat, withSeq: bool)
    requires i <= |s|
    ensures SearchMeta(s, i, withSeq).Some? ==>
              exists k :: i <= k <= |s| && SearchMeta(s, i, withSeq) == MatchAt(s, k, withSeq) &&
                          forall j :: i <= j < k ==> MatchAt(s, j, withSeq).None?
    decreases |s| - i
  {
    if MatchAt(s, i, withSeq).Some? {
      assert SearchMeta(s, i, withSeq) == MatchAt(s, i, withSeq);
    } else if i < |s| {
      SearchMetaLeftmost(s, i + 1, withSeq);
      if SearchMeta(s, i + 1, withSeq).Some? {
        var k :| i + 1 <= k <= |s| && SearchMeta(s, i + 1, withSeq) == MatchAt(s, k, withSeq) &&
                 forall j :: i + 1 <= j < k ==> MatchAt(s, j, withSeq).None?;
        assert SearchMeta(s, i, withSeq) == MatchAt(s, k, withSeq);
      }
    }
  }

  /** A match at any position from `i` on is not missed. */
  lemma {:induction false} SearchMetaComplete(s: string, i: nat, withSeq: bool, k: nat)
    requires i <= k <= |s| && MatchAt(s, k, withSeq).Some?
    ensures SearchMeta(s, i, withSeq).Some?
    decreases k - i
  {
    if MatchAt(s, i, withSeq).None? {
      SearchMetaComplete(s, i + 1, withSeq, k);
    }
  }

  /** `parseMeta` of the BLE link: the header may carry a `,seq=` field before `w`/`h`. */
  function ParseMeta(text: string): Option<Meta> {
    SearchMeta(text, 0, true)
  }

  /** `parseMeta` of the manual capture and of the autonomous mission: no `,seq=` field. */
  function ParseMetaNoSeq(text: string): Option<Meta> {
    SearchMeta(text, 0, false)
  }

  /**
   * The mandatory part of the header at `i`: `META:size=` then the digits up to `e1`, then
   * `,chunks=` then the digits up to `e2`, both digit strings non-empty.
   */
  ghost predicate HeaderSpan(s: string, i: nat, e1: nat, e2: nat) {
    i + 10 < e1 && e1 + 8 < e2 <= |s| &&
    s[i..i + 10] == "META:size=" && s[e1..e1 + 8] == ",chunks=" &&
    (forall k :: i + 10 <= k < e1 ==> IsDigit(s[k])) &&
    (forall k :: e1 + 8 <= k < e2 ==> IsDigit(s[k]))
  }

  ghost predicate HasHeaderAt(s: string, i: nat) {
    exists e1, e2 :: HeaderSpan(s, i, e1, e2)
  }

  lemma MatchAtHasHeader(s: string, i: nat, withSeq: bool)
    requires i <= |s| && MatchAt(s, i, withSeq).Some?
    ensures HasHeaderAt(s, i)
  {
    var e1 := FieldEnd(s, i, "META:size=").value;
    var e2 := FieldEnd(s, e1, ",chunks=").value;
    assert HeaderSpan(s, i, e1, e2);
  }

  lemma HeaderMatchAt(s: string, i: nat, withSeq: bool)
    requires i <= |s| && HasHeaderAt(s, i)
    ensures MatchAt(s, i, withSeq).Some?
  {
    var e1: nat, e2: nat :| HeaderSpan(s, i, e1, e2);
    assert s[e1] == ',' by { assert s[e1] == s[e1..e1 + 8][0]; }
    SpanExact(s, i + 10, e1, IsDigit);
    assert FieldEnd(s, i, "META:size=") == Some(e1);
    assert FieldEnd(s, e1, ",chunks=").Some?;
  }

  /** `parseMeta` succeeds exactly when the text contains the mandatory part of the header somewhere, whichever of the two parsers reads it. */
  lemma ParseMetaIffHeader(text: string)
    ensures ParseMeta(text).Some? <==> exists k :: 0 <= k <= |text| && HasHeaderAt(text, k)
    ensures ParseMetaNoSeq(text).Some? <==> ParseMeta(text).Some?
  {
    if ParseMeta(text).Some? {
      SearchMetaLeftmost(text, 0, true);
      var k :| 0 <= k <= |text| && ParseMeta(text) == MatchAt(text, k, true);
      MatchAtHasHeader(text, k, true);
    }
    if ParseMetaNoSeq(text).Some? {
      SearchMetaLeftmost(text, 0, false);
      var k :| 0 <= k <= |text| && ParseMetaNoSeq(text) == MatchAt(text, k, false);
      MatchAtHasHeader(text, k, false);
    }
    if exists k :: 0 <= k <= |text| && HasHeaderAt(text, k) {
      var k :| 0 <= k <= |text| && HasHeaderAt(text, k);
      HeaderMatchAt(text, k, true);
      SearchMetaComplete(text, 0, true, k);
      HeaderMatchAt(text, k, false);
      SearchMetaComplete(text, 0, false, k);
    }
  }

  /** A field as the firmware writes it. */
  function RenderField(tag: string, n: Option<nat>): string {
    if n.Some? then tag + NatToString(n.value) else ""
  }

  /** The header line as the firmware writes it; `seqField` is the optional `,seq=` value. */
  function RenderMeta(m: Meta, seqField: Option<nat>): string {
    "META:size=" + NatToString(m.size) + ",chunks=" + NatToString(m.chunks) +
    RenderField(",seq=", seqField) + RenderField(",w=", m.width) + RenderField(",h=", m.height)
  }

  /** What may follow a header line without changing how it reads: nothing, or a character that is neither a digit nor `,`. */
  predicate HeaderTrailer(rest: string) {
    rest == [] || (!IsDigit(rest[0]) && rest[0] != ',')
  }

  /** Splitting a suffix of `s` that is a concatenation. */
  lemma SuffixParts(s: string, p: nat, x: string, y: string)
    requires p <= |s| && s[p..] == x + y
    ensures p + |x| <= |s| && s[p..p + |x|] == x && s[p + |x|..] == y
  {
    assert s[p..p + |x|] == (x + y)[..|x|];
    assert s[p + |x|..] == (x + y)[|x|..];
  }

  /** A rendered field at `p` is found by `FieldEnd` and read back with its value. */
  lemma FieldStep(s: string, p: nat, tag: string, n: nat, post: string) returns (e: nat)
    requires p <= |s| && s[p..] == tag + (NatToString(n) + post)
    requires post == [] || !IsDigit(post[0])
    ensures p + |tag| < e <= |s| && forall k :: p + |tag| <= k < e ==> IsDigit(s[k])
    ensures FieldEnd(s, p, tag) == Some(e) && FieldValue(s, p, tag, e) == n
    ensures s[e..] == post
  {
    var d := NatToString(n);
    var q := p + |tag|;
    e := q + |d|;
    NatToStringValue(n);
    SuffixParts(s, p, tag, d + post);
    SuffixParts(s, q, d, post);
    forall k | q <= k < e ensures IsDigit(s[k]) {
      assert s[k] == s[q..e][k - q];
    }
    assert e == |s| || s[e] == s[e..][0];
    SpanExact(s, q, e, IsDigit);
  }

  /** An optional field at `p` is read when rendered and skipped when absent. */
  lemma OptionalStep(s: string, p: nat, tag: string, n: Option<nat>, post: string) returns (q: nat)
    requires p <= |s| && s[p..] == RenderField(tag, n) + post
    requires post == [] || !IsDigit(post[0])
    requires n.None? ==> !(|tag| <= |post| && post[..|tag|] == tag)
    ensures q <= |s| && s[q..] == post
    ensures OptField(s, p, tag) == n && After(s, p, tag) == q
  {
    if n.Some? {
      assert s[p..] == tag + (NatToString(n.value) + post);
      q := FieldStep(s, p, tag, n.value, post);
    } else {
      q := p;
      assert s[p..] == post;
      assert p + |tag| <= |s| ==> s[p..p + |tag|] == post[..|tag|];
    }
  }

  /** What follows the mandatory fields of a rendered header starts with neither a digit nor a tag it does not hold. */
  lemma TailFacts(w: Option<nat>, h: Option<nat>, rest: string)
    requires HeaderTrailer(rest)
    ensures var x4 := RenderField(",h=", h) + rest;
            (x4 == [] || !IsDigit(x4[0])) &&
            (w.None? ==> !(3 <= |x4| && x4[..3] == ",w="))
    ensures var x3 := RenderField(",w=", w) + (RenderField(",h=", h) + rest);
            (x3 == [] || !IsDigit(x3[0])) && !(5 <= |x3| && x3[..5] == ",seq=")
    ensures !(3 <= |rest| && rest[..3] == ",h=")
  {
    assert 3 <= |rest| ==> rest[..3][0] == rest[0];
    var x4 := RenderField(",h=", h) + rest;
    var x3 := RenderField(",w=", w) + x4;
    if h.Some? {
      assert x4[0] == ',' && x4[1] == 'h';
    } else {
      assert x4 == rest;
    }
    assert 3 <= |x4| ==> x4[..3][1] == x4[1];
    if w.Some? {
      assert x3[0] == ',' && x3[1] == 'w';
    } else {
      assert x3 == x4;
    }
    assert 5 <= |x3| ==> x3[..5][1] == x3[1];
  }

  /** The rendered header followed by `rest`, nested to the right field by field. */
  lemma RenderMetaNested(m: Meta, seqField: Option<nat>, rest: string)
    ensures RenderMeta(m, seqField) + rest ==
            "META:size=" + (NatToString(m.size) + (",chunks=" + (NatToString(m.chunks) +
            (RenderField(",seq=", seqField) + (RenderField(",w=", m.width) + (RenderField(",h=", m.height) + rest))))))
  {
    var a, sz, b, ch := "META:size=", NatToString(m.size), ",chunks=", NatToString(m.chunks);
    var fq, fw, fh := RenderField(",seq=", seqField), RenderField(",w=", m.width), RenderField(",h=", m.height);
    Assoc(a + sz + b + ch + fq + fw, fh, rest);
    Assoc(a + sz + b + ch + fq, fw, fh + rest);
    Assoc(a + sz + b + ch, fq, fw + (fh + rest));
    Assoc(a + sz + b, ch, fq + (fw + (fh + rest)));
    Assoc(a + sz, b, ch + (fq + (fw + (fh + rest))));
    Assoc(a, sz, b + (ch + (fq + (fw + (fh + rest)))));
  }

  lemma Assoc(x: string, y: string, z: string)
    ensures x + y + z == x + (y + z)
  {
  }

  /** The pattern at `i` in terms of where its fields were found. */
  lemma MatchAtFields(s: string, i: nat, withSeq: bool, e1: nat, e2: nat, p3: nat, p4: nat, m: Meta)
    requires i <= |s|
    requires FieldEnd(s, i, "META:size=") == Some(e1) && FieldValue(s, i, "META:size=", e1) == m.size
    requires FieldEnd(s, e1, ",chunks=") == Some(e2) && FieldValue(s, e1, ",chunks=", e2) == m.chunks
    requires e2 <= |s| && p3 == (if withSeq then After(s, e2, ",seq=") else e2)
    requires p3 <= |s| && OptField(s, p3, ",w=") == m.width && After(s, p3, ",w=") == p4
    requires p4 <= |s| && OptField(s, p4, ",h=") == m.height
    ensures MatchAt(s, i, withSeq) == Some(m)
  {
  }

  /** Where the fields of a rendered header end, and what the pattern reads there. */
  lemma MatchAtRendered(m: Meta, seqField: Option<nat>, rest: string, withSeq: bool)
    requires HeaderTrailer(rest)
    requires withSeq || seqField.None?
    ensures MatchAt(RenderMeta(m, seqField) + rest, 0, withSeq) == Some(m)
  {
    var s := RenderMeta(m, seqField) + rest;
    RenderMetaNested(m, seqField, rest);
    MatchAtNested(s, m, seqField, rest, withSeq);
  }

  lemma MatchAtNested(s: string, m: Meta, seqField: Option<nat>, rest: string, withSeq: bool)
    requires HeaderTrailer(rest)
    requires withSeq || seqField.None?
    requires s == "META:size=" + (NatToString(m.size) + (",chunks=" + (NatToString(m.chunks) +
            (RenderField(",seq=", seqField) + (RenderField(",w=", m.width) + (RenderField(",h=", m.height) + rest))))))
    ensures MatchAt(s, 0, withSeq) == Some(m)
  {
    var x1 := ",chunks=" + (NatToString(m.chunks) +
              (RenderField(",seq=", seqField) + (RenderField(",w=", m.width) + (RenderField(",h=", m.height) + rest))));
    assert s[0..] == s;
    var e1 := FieldStep(s, 0, "META:size=", m.size, x1);
    var e2, p3, p4 := AfterSizeRendered(s, e1, m, seqField, rest, withSeq);
    MatchAtFields(s, 0, withSeq, e1, e2, p3, p4, m);
  }

  /** The fields of a rendered header after the size field. */
  lemma AfterSizeRendered(s: string, e1: nat, m: Meta, seqField: Option<nat>, rest: string, withSeq: bool)
      returns (e2: nat, p3: nat, p4: nat)
    requires HeaderTrailer(rest)
    requires withSeq || seqField.None?
    requires e1 <= |s| && s[e1..] == ",chunks=" + (NatToString(m.chunks) +
            (RenderField(",seq=", seqField) + (RenderField(",w=", m.width) + (RenderField(",h=", m.height) + rest))))
    ensures FieldEnd(s, e1, ",chunks=") == Some(e2) && FieldValue(s, e1, ",chunks=", e2) == m.chunks
    ensures e2 <= |s| && p3 == (if withSeq then After(s, e2, ",seq=") else e2)
    ensures p3 <= |s| && OptField(s, p3, ",w=") == m.width && After(s, p3, ",w=") == p4
    ensures p4 <= |s| && OptField(s, p4, ",h=") == m.height
  {
    var x2 := RenderField(",seq=", seqField) + (RenderField(",w=", m.width) + (RenderField(",h=", m.height) + rest));
    e2 := FieldStep(s, e1, ",chunks=", m.chunks, x2);
    p3 := SeqFieldRendered(s, e2, seqField, m.width, m.height, rest, withSeq);
    p4 := WidthRendered(s, p3, m.width, m.height, rest);
    HeightRendered(s, p4, m.height, rest);
  }


  /** The optional `,seq=` field of a rendered header: where the parser continues after it. */
  lemma SeqFieldRendered(s: string, p: nat, q: Option<nat>, w: Option<nat>, h: Option<nat>, rest: string, withSeq: bool)
      returns (p3: nat)
    requires HeaderTrailer(rest)
    requires withSeq || q.None?
    requires p <= |s| && s[p..] == RenderField(",seq=", q) + (RenderField(",w=", w) + (RenderField(",h=", h) + rest))
    ensures p3 == (if withSeq then After(s, p, ",seq=") else p)
    ensures p3 <= |s| && s[p3..] == RenderField(",w=", w) + (RenderField(",h=", h) + rest)
  {
    TailFacts(w, h, rest);
    p3 := OptionalStep(s, p, ",seq=", q, RenderField(",w=", w) + (RenderField(",h=", h) + rest));
  }

  /** The optional `,w=` field of a rendered header is read back with its value. */
  lemma WidthRendered(s: string, p3: nat, w: Option<nat>, h: Option<nat>, rest: string) returns (p4: nat)
    requires HeaderTrailer(rest)
    requires p3 <= |s| && s[p3..] == RenderField(",w=", w) + (RenderField(",h=", h) + rest)
    ensures OptField(s, p3, ",w=") == w && After(s, p3, ",w=") == p4
    ensures p4 <= |s| && s[p4..] == RenderField(",h=", h) + rest
  {
    TailFacts(w, h, rest);
    p4 := OptionalStep(s, p3, ",w=", w, RenderField(",h=", h) + rest);
  }

  /** The optional `,h=` field of a rendered header is read back with its value. */
  lemma HeightRendered(s: string, p4: nat, h: Option<nat>, rest: string)
    requires HeaderTrailer(rest)
    requires p4 <= |s| && s[p4..] == RenderField(",h=", h) + rest
    ensures OptField(s, p4, ",h=") == h
  {
    assert 3 <= |rest| ==> rest[..3][0] == rest[0];
    var end := OptionalStep(s, p4, ",h=", h, rest);
  }



  /** Reading back a rendered header with the BLE link's parser gives back the same header. */
  lemma ParseMetaOfRender(m: Meta, seqField: Option<nat>, rest: string)
    requires HeaderTrailer(rest)
    ensures ParseMeta(RenderMeta(m, seqField) + rest) == Some(m)
  {
    MatchAtRendered(m, seqField, rest, true);
  }

  /** After `,chunks=<digits>` the parser without `,seq=` finds neither `,w=` nor `,h=` when `,seq=` comes next. */
  lemma MatchAtSkipsAfterSeq(m: Meta, q: nat, rest: string)
    ensures MatchAt(RenderMeta(m, Some(q)) + rest, 0, false) == Some(Meta(m.size, m.chunks, None, None))
  {
    var s := RenderMeta(m, Some(q)) + rest;
    var x2 := RenderField(",seq=", Some(q)) + (RenderField(",w=", m.width) + (RenderField(",h=", m.height) + rest));
    RenderMetaNested(m, Some(q), rest);
    assert s[0..] == s;
    var e1 := FieldStep(s, 0, "META:size=", m.size, ",chunks=" + (NatToString(m.chunks) + x2));
    var e2 := ChunksThenSeq(s, e1, m.chunks, x2);
    MatchAtFields(s, 0, false, e1, e2, e2, e2, Meta(m.size, m.chunks, None, None));
  }

  /** `,chunks=<digits>` followed by `,seq=`: neither `,w=` nor `,h=` starts there. */
  lemma ChunksThenSeq(s: string, e1: nat, chunks: nat, x2: string) returns (e2: nat)
    requires e1 <= |s| && s[e1..] == ",chunks=" + (NatToString(chunks) + x2)
    requires |x2| >= 2 && x2[0] == ',' && x2[1] == 's'
    ensures FieldEnd(s, e1, ",chunks=") == Some(e2) && FieldValue(s, e1, ",chunks=", e2) == chunks
    ensures e2 <= |s| && OptField(s, e2, ",w=") == None && After(s, e2, ",w=") == e2 && OptField(s, e2, ",h=") == None
  {
    e2 := FieldStep(s, e1, ",chunks=", chunks, x2);
    assert s[e2 + 1] == s[e2..][1] == 's';
    assert e2 + 3 <= |s| ==> s[e2..e2 + 3][1] == s[e2 + 1];
  }


  /**
   * The parser without a `,seq=` field reads a header without one faithfully, but when the
   * firmware adds `,seq=` it keeps size and chunks and loses width and height.
   */
  lemma ParseMetaNoSeqOfRender(m: Meta, seqField: Option<nat>, rest: string)
    requires HeaderTrailer(rest)
    ensures seqField.None? ==> ParseMetaNoSeq(RenderMeta(m, seqField) + rest) == Some(m)
    ensures seqField.Some? ==> ParseMetaNoSeq(RenderMeta(m, seqField) + rest) == Some(Meta(m.size, m.chunks, None, None))
  {
    if seqField.Some? {
      MatchAtSkipsAfterSeq(m, seqField.value, rest);
    } else {
      MatchAtRendered(m, seqField, rest, false);
    }
  }

  // ---------------------------------------------------------------------------------
  // Binary chunk frame

  /** A chunk of image data and its sequence number. */
  datatype ChunkFrame = ChunkFrame(seqNo: nat, payload: seq<byte>)

  /**
   * `(hi << 8) | lo`: the big-endian 16-bit sequence number. Both operands are bytes, so
   * the shift and the or never overflow 32 bits and the or adds two disjoint bit ranges.
   */
  function SeqNumber(hi: byte, lo: byte): (n: nat)
    ensures n < 65536 && n / 256 == hi && n % 256 == lo
  {
    hi * 256 + lo
  }

  /** The chunk-frame decoder: at least four bytes starting with `C` (67) and `H` (72). */
  function DecodeChunk(b: seq<byte>): (r: Option<ChunkFrame>)
    ensures r.Some? <==> |b| >= 4 && b[0] == 67 && b[1] == 72
    ensures r.Some? ==> r.value.seqNo < 65536 && r.value.payload == b[4..] && |r.value.payload| == |b| - 4
  {
    if |b| >= 4 && b[0] == 67 && b[1] == 72 then
      Some(ChunkFrame(SeqNumber(b[2], b[3]), b[4..]))
    else
      None
  }

  /** The frame as the firmware sends it. */
  function EncodeChunk(f: ChunkFrame): (b: seq<byte>)
    requires f.seqNo < 65536
    ensures |b| == |f.payload| + 4
  {
    [67, 72, f.seqNo / 256, f.seqNo % 256] + f.payload
  }

  /** Decoding an encoded frame gives it back. */
  lemma DecodeEncodeChunk(f: ChunkFrame)
    requires f.seqNo < 65536
    ensures DecodeChunk(EncodeChunk(f)) == Some(f)
  {
    var b := EncodeChunk(f);
    assert b[4..] == f.payload;
  }

  /** Every buffer the decoder accepts is the encoding of what it returns. */
  lemma EncodeDecodeChunk(b: seq<byte>)
    requires DecodeChunk(b).Some?
    ensures EncodeChunk(DecodeChunk(b).value) == b
  {
    var f := DecodeChunk(b).value;
    assert f.seqNo / 256 == b[2] && f.seqNo % 256 == b[3];
    assert b == b[..4] + b[4..];
  }

  /** A chunk frame starts with `C`, so it never reads as a `META:`, `DONE` or `BUSY` line. */
  lemma ChunkIsNoTextLine(b: seq<byte>)
    requires DecodeChunk(b).Some?
    ensures var t := BytesToText(b);
            !StartsWith(t, "META:") && !StartsWith(t, "DONE") && !StartsWith(t, "BUSY")
  {
    var t := BytesToText(b);
    assert t[0] == 'C';
    assert 5 <= |t| ==> t[..5][0] == t[0];
    assert t[..4][0] == t[0];
  }

  // ---------------------------------------------------------------------------------
  // Outgoing commands

  /** `writeCommand`'s terminator rule: a command longer than one character gets `\n` unless it already ends with one. */
  function FrameCommand(cmd: string): (p: string)
    ensures |cmd| <= 1 ==> p == cmd
    ensures |cmd| > 1 ==> EndsWith(p, "\n") && (p == cmd || p == cmd + "\n")
    ensures |cmd| > 1 && cmd[|cmd| - 1] != '\n' ==> p[..|cmd|] == cmd && |p| == |cmd| + 1
    ensures |cmd| > 1 && cmd[|cmd| - 1] == '\n' ==> p == cmd
  {
    if |cmd| > 1 && !EndsWith(cmd, "\n") then cmd + "\n" else cmd
  }

  /** Framing an already framed command changes nothing. */
  lemma FrameCommandIdempotent(cmd: string)
    ensures FrameCommand(FrameCommand(cmd)) == FrameCommand(cmd)
  {
    var p := FrameCommand(cmd);
    if |cmd| > 1 {
      assert EndsWith(p, "\n");
    }
  }

  /** The seven motion commands. */
  datatype Direction = F | B | L | R | S | U | D

  function DirectionText(d: Direction): (t: string)
    ensures |t| == 1
  {
    match d
    case F => "F" case B => "B" case L => "L" case R => "R"
    case S => "S" case U => "U" case D => "D"
  }

  /** The command as a direction when it is one of the seven one-letter commands. */
  function DirectionOf(cmd: string): (r: Option<Direction>)
    ensures r.Some? ==> cmd == DirectionText(r.value)
    ensures r.None? ==> forall d :: cmd != DirectionText(d)
  {
    if cmd == "F" then Some(F) else if cmd == "B" then Some(B)
    else if cmd == "L" then Some(L) else if cmd == "R" then Some(R)
    else if cmd == "S" then Some(S) else if cmd == "U" then Some(U)
    else if cmd == "D" then Some(D) else None
  }

  /**
   * The direction echo: a notification whose whole text is a direction letter sets the
   * last command; `U` reads as forward and `D` as backward. The raw text is compared, so
   * an echo with a line ending is not recognised.
   */
  function EchoOf(text: string): (r: Option<Direction>)
    ensures r.Some? ==> |text| == 1 && r.value in {F, B, L, R, S}
    ensures r.None? <==> DirectionOf(text).None?
  {
    if text == "F" || text == "U" then Some(F)
    else if text == "B" || text == "D" then Some(B)
    else if text == "L" then Some(L)
    else if text == "R" then Some(R)
    else if text == "S" then Some(S)
    else None
  }

  /** The direction the echo reports for a direction letter: itself, with up and down folded onto forward and backward. */
  lemma EchoOfDirection(d: Direction)
    ensures EchoOf(DirectionText(d)) == Some(if d == U then F else if d == D then B else d)
  {
  }

  // ---------------------------------------------------------------------------------
  // Text classification

  /** The photo events a text line can raise; a `None` sequence stands for the `NaN` sentinel. */
  datatype PhotoEvent = Begin(seqArg: Option<int>) | MetaLine(meta: Meta) | DoneLine | End(seqArg: Option<int>)

  /** The integer after the last `:` of the line, `None` for `NaN`. */
  function SeqField(text: string): Option<int> {
    ParseInt(LastSegment(text, ':'))
  }

  /**
   * The prefix chain of the notification handler: the first matching prefix decides, and a
   * line raises at most one event. BEGIN and END need a numeric last field, META a header.
   */
  function ClassifyText(text: string): (r: Option<PhotoEvent>)
  {
    if StartsWith(text, "PHOTO:START") then Some(Begin(None))
    else if StartsWith(text, "PHOTO:BEGIN:") then
      (match SeqField(text) case None => None case Some(n) => Some(Begin(Some(n))))
    else if StartsWith(text, "META:") then
      (match ParseMeta(text) case None => None case Some(m) => Some(MetaLine(m)))
    else if StartsWith(text, "DONE") then Some(DoneLine)
    else if StartsWith(text, "PHOTO:DONE") then Some(End(None))
    else if StartsWith(text, "PHOTO:END:") then
      (match SeqField(text) case None => None case Some(n) => Some(End(Some(n))))
    else None
  }

  /** A prefix is not there when one of its characters is missing or different. */
  lemma NotPrefixAt(s: string, p: string, k: nat)
    requires k < |p| && (k >= |s| || s[k] != p[k])
    ensures !StartsWith(s, p)
  {
    assert |p| <= |s| ==> s[..|p|][k] == s[k];
  }

  /** Only lines starting with `P`, `M` or `D` raise a photo event. */
  lemma ClassifyNeedsLetter(text: string)
    requires text == [] || (text[0] != 'P' && text[0] != 'M' && text[0] != 'D')
    ensures ClassifyText(text) == None
  {
    NotPrefixAt(text, "PHOTO:START", 0);
    NotPrefixAt(text, "PHOTO:BEGIN:", 0);
    NotPrefixAt(text, "META:", 0);
    NotPrefixAt(text, "DONE", 0);
    NotPrefixAt(text, "PHOTO:DONE", 0);
    NotPrefixAt(text, "PHOTO:END:", 0);
  }

  /** The line the firmware sends for an event. */
  function RenderEvent(e: PhotoEvent): string {
    match e
    case Begin(None) => "PHOTO:START"
    case Begin(Some(n)) => "PHOTO:BEGIN:" + IntToString(n)
    case MetaLine(m) => RenderMeta(m, None)
    case DoneLine => "DONE"
    case End(None) => "PHOTO:DONE"
    case End(Some(n)) => "PHOTO:END:" + IntToString(n)
  }

  /** What may follow an event line: nothing, or whitespace (a line ending) with no `:` in it. */
  predicate LineTrailer(rest: string) {
    rest == [] || (IsJsSpace(rest[0]) && ':' !in rest)
  }

  lemma SeqFieldOfRendered(prefix: string, n: int, rest: string)
    requires prefix != [] && prefix[|prefix| - 1] == ':'
    requires LineTrailer(rest)
    ensures SeqField(prefix + IntToString(n) + rest) == Some(n)
  {
    assert ':' !in IntToString(n) + rest;
    assert prefix + IntToString(n) + rest == prefix + (IntToString(n) + rest);
    LastSegmentAfter(prefix, IntToString(n) + rest, ':');
    ParseIntOfIntToString(n, rest);
  }

  lemma StartsWithConcat(s: string, p: string, rest: string)
    requires s == p + rest
    ensures StartsWith(s, p)
  {
    assert s[..|p|] == p;
  }

  lemma ClassifyBegin(n: int, rest: string)
    requires LineTrailer(rest)
    ensures ClassifyText("PHOTO:BEGIN:" + IntToString(n) + rest) == Some(Begin(Some(n)))
  {
    var s := "PHOTO:BEGIN:" + IntToString(n) + rest;
    StartsWithConcat(s, "PHOTO:BEGIN:", IntToString(n) + rest);
    NotPrefixAt(s, "PHOTO:START", 6);
    SeqFieldOfRendered("PHOTO:BEGIN:", n, rest);
  }

  lemma ClassifyEnd(n: int, rest: string)
    requires LineTrailer(rest)
    ensures ClassifyText("PHOTO:END:" + IntToString(n) + rest) == Some(End(Some(n)))
  {
    var s := "PHOTO:END:" + IntToString(n) + rest;
    StartsWithConcat(s, "PHOTO:END:", IntToString(n) + rest);
    NotPrefixAt(s, "PHOTO:START", 6);
    NotPrefixAt(s, "PHOTO:BEGIN:", 6);
    NotPrefixAt(s, "META:", 0);
    NotPrefixAt(s, "DONE", 0);
    NotPrefixAt(s, "PHOTO:DONE", 6);
    SeqFieldOfRendered("PHOTO:END:", n, rest);
  }

  lemma ClassifyMeta(m: Meta, rest: string)
    requires LineTrailer(rest)
    ensures ClassifyText(RenderMeta(m, None) + rest) == Some(MetaLine(m))
  {
    var s := RenderMeta(m, None) + rest;
    assert s[..5] == "META:" by {
      forall k | 0 <= k < 5 ensures s[k] == "META:size="[k] { }
    }
    NotPrefixAt(s, "PHOTO:START", 0);
    NotPrefixAt(s, "PHOTO:BEGIN:", 0);
    ParseMetaOfRender(m, None, rest);
  }

  /** Every event the firmware writes is classified as that event, line ending or not. */
  lemma ClassifyRenderEvent(e: PhotoEvent, rest: string)
    requires LineTrailer(rest)
    ensures ClassifyText(RenderEvent(e) + rest) == Some(e)
  {
    var s := RenderEvent(e) + rest;
    match e
    case Begin(None) =>
      StartsWithConcat(s, "PHOTO:START", rest);
    case Begin(Some(n)) =>
      ClassifyBegin(n, rest);
    case MetaLine(m) =>
      ClassifyMeta(m, rest);
    case DoneLine =>
      StartsWithConcat(s, "DONE", rest);
      NotPrefixAt(s, "PHOTO:START", 0);
      NotPrefixAt(s, "PHOTO:BEGIN:", 0);
      NotPrefixAt(s, "META:", 0);
    case End(None) =>
      StartsWithConcat(s, "PHOTO:DONE", rest);
      NotPrefixAt(s, "PHOTO:START", 6);
      NotPrefixAt(s, "PHOTO:BEGIN:", 6);
      NotPrefixAt(s, "META:", 0);
      NotPrefixAt(s, "DONE", 0);
    case End(Some(n)) =>
      ClassifyEnd(n, rest);
  }

  // ---------------------------------------------------------------------------------
  // Demultiplexing one notification

  /** Which single-slot callbacks are registered when a notification arrives. */
  datatype Subscribers = Subscribers(raw: bool, text: bool, begin: bool, meta: bool,
                                     chunk: bool, done: bool, end: bool)

  /** What one notification delivers, in the order the handler delivers it. */
  datatype Dispatch = Dispatch(raw: bool, text: Option<string>, event: Option<PhotoEvent>,
                               echo: Option<Direction>, chunk: Option<ChunkFrame>)

  predicate EventSubscribed(e: PhotoEvent, subs: Subscribers) {
    match e
    case Begin(_) => subs.begin
    case MetaLine(_) => subs.meta
    case DoneLine => subs.done
    case End(_) => subs.end
  }

  /**
   * The notification handler: the raw callback first, then for a non-empty text the trimmed
   * text, the photo event and the echo, and last the chunk frame, each only when its
   * callback is registered. Every byte buffer goes through both the text and the binary path.
   */
  function Route(b: seq<byte>, subs: Subscribers): (d: Dispatch)
    ensures d.raw == subs.raw
    ensures d.text.Some? <==> b != [] && subs.text
    ensures d.text.Some? ==> d.text.value == Trim(BytesToText(b))
    ensures d.event.Some? ==> EventSubscribed(d.event.value, subs) && ClassifyText(BytesToText(b)) == d.event
    ensures ClassifyText(BytesToText(b)).Some? && EventSubscribed(ClassifyText(BytesToText(b)).value, subs) ==>
              d.event == ClassifyText(BytesToText(b))
    ensures d.chunk.Some? ==> subs.chunk && DecodeChunk(b) == d.chunk
    ensures subs.chunk ==> d.chunk == DecodeChunk(b)
    ensures d.echo == EchoOf(BytesToText(b))
  {
    var t := BytesToText(b);
    var ev := if t != [] then ClassifyText(t) else None;
    Dispatch(subs.raw,
             if t != [] && subs.text then Some(Trim(t)) else None,
             if ev.Some? && EventSubscribed(ev.value, subs) then ev else None,
             if t != [] then EchoOf(t) else None,
             if subs.chunk then DecodeChunk(b) else None)
  }

  /** A chunk frame never raises a photo event or an echo, and a photo event is never a chunk frame. */
  lemma ChunkFramesAreNotEvents(b: seq<byte>, subs: Subscribers)
    ensures DecodeChunk(b).Some? ==> ClassifyText(BytesToText(b)) == None && EchoOf(BytesToText(b)) == None
    ensures Route(b, subs).event.Some? ==> Route(b, subs).chunk.None?
  {
    var t := BytesToText(b);
    if |b| >= 1 && b[0] == 67 {
      assert t[0] == 'C';
      ClassifyNeedsLetter(t);
    }
  }

  /** A chunk frame still reaches the text callback, as its trimmed character string. */
  lemma ChunkFramesReachText(b: seq<byte>, subs: Subscribers)
    requires DecodeChunk(b).Some? && subs.text && subs.chunk
    ensures Route(b, subs).text.Some? && Route(b, subs).chunk == DecodeChunk(b)
  {
  }

  /** A rendered event line, with or without a line ending, reaches its subscriber as exactly that event and never as a chunk. */
  lemma RouteDeliversEvent(b: seq<byte>, e: PhotoEvent, rest: string, subs: Subscribers)
    requires BytesToText(b) == RenderEvent(e) + rest && LineTrailer(rest)
    requires EventSubscribed(e, subs)
    ensures Route(b, subs).event == Some(e)
    ensures Route(b, subs).chunk.None?
  {
    ClassifyRenderEvent(e, rest);
    var t := BytesToText(b);
    assert t[0] == RenderEvent(e)[0];
    assert t[0] == 'P' || t[0] == 'M' || t[0] == 'D';
  }

  /** An encoded chunk frame reaches the chunk subscriber as that frame and raises no photo event. */
  lemma RouteDeliversChunk(f: ChunkFrame, subs: Subscribers)
    requires f.seqNo < 65536 && subs.chunk
    ensures Route(EncodeChunk(f), subs).chunk == Some(f)
    ensures Route(EncodeChunk(f), subs).event.None?
  {
    DecodeEncodeChunk(f);
    ChunkFramesAreNotEvents(EncodeChunk(f), subs);
  }
}
