/** The SCAN payloads of pkg/proto/scan.go, little-endian. */
module ScanCodec {
  import opened ByteStrings

  datatype ScanRequest = ScanRequest(start: Bytes, end: Bytes, field: Bytes, op: byte, operand: Bytes)

  datatype ScanEntry = ScanEntry(key: Bytes, value: Bytes)

  datatype Response = Response(status: Bytes, entries: seq<ScanEntry>)

  // ----------------------------------------------------------------- requests

  function RequestHeader(r: ScanRequest): (s: Bytes)
    ensures |s| == 13
  {
    LittleEndian(|r.start|, 4) + LittleEndian(|r.end|, 4) + LittleEndian(|r.field|, 4) + [r.op]
  }

  function EncodeRequest(r: ScanRequest): Bytes {
    RequestHeader(r) + r.start + r.end + r.field + r.operand
  }

  /** copy and PutUint32 at a moving offset. */
  method CopyAt(buf: array<byte>, off: nat, src: Bytes) returns (next: nat)
    requires off + |src| <= buf.Length
    modifies buf
    ensures next == off + |src| && buf[..next] == old(buf[..off]) + src
  {
    for i := 0 to |src|
      invariant buf[..off + i] == old(buf[..off]) + src[..i]
    {
      buf[off + i] := src[i];
    }
    next := off + |src|;
    assert src[..|src|] == src;
  }

  /** The request written into one buffer of the exact size. */
  method EncodeScanRequest(r: ScanRequest) returns (buf: array<byte>)
    ensures fresh(buf) && buf[..] == EncodeRequest(r)
    ensures buf[..] == LittleEndian(|r.start|, 4) + LittleEndian(|r.end|, 4) + LittleEndian(|r.field|, 4) + [r.op] +
                       r.start + r.end + r.field + r.operand
  {
    buf := new byte[13 + |r.start| + |r.end| + |r.field| + |r.operand|];
    var off := CopyAt(buf, 0, RequestHeader(r));
    off := CopyAt(buf, off, r.start);
    off := CopyAt(buf, off, r.end);
    off := CopyAt(buf, off, r.field);
    off := CopyAt(buf, off, r.operand);
    assert buf[..] == buf[..off];
  }

  function DecodeRequest(data: Bytes): Option<ScanRequest> {
    if |data| < 13 then None
    else
      var startLen := FromLittleEndian(data[0..4]);
      var endLen := FromLittleEndian(data[4..8]);
      var fieldLen := FromLittleEndian(data[8..12]);
      if 13 + startLen + endLen + fieldLen > |data| then None
      else
        var a, b := 13 + startLen, 13 + startLen + endLen;
        Some(ScanRequest(data[13..a], data[a..b], data[b..b + fieldLen], data[12], data[b + fieldLen..]))
  }

  lemma {:induction false} RequestFields(r: ScanRequest)
    requires |r.start| < TWO32 && |r.end| < TWO32 && |r.field| < TWO32
    ensures var h := RequestHeader(r);
            && FromLittleEndian(h[0..4]) == |r.start| && FromLittleEndian(h[4..8]) == |r.end|
            && FromLittleEndian(h[8..12]) == |r.field| && h[12] == r.op
  {
    Widths();
    var h := RequestHeader(r);
    assert h[0..4] == LittleEndian(|r.start|, 4);
    assert h[4..8] == LittleEndian(|r.end|, 4);
    assert h[8..12] == LittleEndian(|r.field|, 4);
    LittleEndianRoundTrip(|r.start|, 4);
    LittleEndianRoundTrip(|r.end|, 4);
    LittleEndianRoundTrip(|r.field|, 4);
  }

  predicate FitsRequest(r: ScanRequest) {
    |r.start| < TWO32 && |r.end| < TWO32 && |r.field| < TWO32
  }

  /** A length read from four bytes. */
  lemma {:induction false} LengthFits(data: Bytes, at: nat)
    requires at + 4 <= |data|
    ensures FromLittleEndian(data[at..at + 4]) < TWO32
  {
    Widths();
    LittleEndianIsBounded(data[at..at + 4]);
  }

  /** A request decodes to what was encoded, the operand being whatever is left, exactly when its
      lengths fit their fields. */
  lemma {:induction false} RequestRoundTrip(r: ScanRequest)
    ensures DecodeRequest(EncodeRequest(r)) == Some(r) <==> FitsRequest(r)
  {
    if FitsRequest(r) {
      RequestFields(r);
      RequestSlices(RequestHeader(r), r.start, r.end, r.field, r.operand);
    } else {
      var data := EncodeRequest(r);
      LengthFits(data, 0);
      LengthFits(data, 4);
      LengthFits(data, 8);
    }
  }

  lemma {:induction false} RequestSlices(h: Bytes, a: Bytes, b: Bytes, c: Bytes, d: Bytes)
    requires |h| == 13
    ensures var data := h + a + b + c + d;
            && data[0..4] == h[0..4] && data[4..8] == h[4..8] && data[8..12] == h[8..12] && data[12] == h[12]
            && data[13..13 + |a|] == a && data[13 + |a|..13 + |a| + |b|] == b
            && data[13 + |a| + |b|..13 + |a| + |b| + |c|] == c && data[13 + |a| + |b| + |c|..] == d
  {
  }

  /** An encoded request cut before its operand is rejected; cut later, it loses the end of the
      operand and nothing else. */
  lemma {:induction false} CutRequest(r: ScanRequest, cut: nat)
    requires FitsRequest(r) && cut <= |EncodeRequest(r)|
    ensures var n := 13 + |r.start| + |r.end| + |r.field|;
            DecodeRequest(EncodeRequest(r)[..cut]) == if cut < n then None else Some(r.(operand := r.operand[..cut - n]))
  {
    var h, data := RequestHeader(r), EncodeRequest(r)[..cut];
    var n := 13 + |r.start| + |r.end| + |r.field|;
    RequestFields(r);
    RequestSlices(h, r.start, r.end, r.field, r.operand);
    if 13 <= cut {
      assert data[0..4] == h[0..4] && data[4..8] == h[4..8] && data[8..12] == h[8..12] && data[12] == h[12];
    }
    if n <= cut {
      var r' := r.(operand := r.operand[..cut - n]);
      assert data == EncodeRequest(r');
      RequestRoundTrip(r');
    }
  }

  // ---------------------------------------------------------------- responses

  function EntryHeader(e: ScanEntry): (s: Bytes)
    ensures |s| == 8
  {
    LittleEndian(|e.key|, 4) + LittleEndian(|e.value|, 4)
  }

  function EncodeEntry(e: ScanEntry): (s: Bytes)
    ensures |s| == 8 + |e.key| + |e.value|
  {
    EntryHeader(e) + e.key + e.value
  }

  function EncodeEntries(es: seq<ScanEntry>): Bytes {
    if es == [] then [] else EncodeEntry(es[0]) + EncodeEntries(es[1..])
  }

  function EncodeResponse(r: Response): Bytes {
    [|r.status| % 256] + r.status + LittleEndian(|r.entries|, 4) + EncodeEntries(r.entries)
  }

  lemma {:induction false} EntriesAppend(a: seq<ScanEntry>, b: seq<ScanEntry>)
    ensures EncodeEntries(a + b) == EncodeEntries(a) + EncodeEntries(b)
  {
    if a == [] {
      assert a + b == b;
    } else {
      assert (a + b)[1..] == a[1..] + b;
      EntriesAppend(a[1..], b);
    }
  }

  lemma {:induction false} NextEntry(es: seq<ScanEntry>, i: nat)
    requires i < |es|
    ensures EncodeEntries(es[..i + 1]) == EncodeEntries(es[..i]) + EncodeEntry(es[i])
    ensures |EncodeEntries(es[..i])| + |EncodeEntry(es[i])| <= |EncodeEntries(es)|
  {
    var one := [es[i]];
    assert es[..i + 1] == es[..i] + one;
    EntriesAppend(es[..i], one);
    assert one[1..] == [];
    assert EncodeEntries(one) == EncodeEntry(es[i]);
    assert es == es[..i + 1] + es[i + 1..];
    EntriesAppend(es[..i + 1], es[i + 1..]);
  }

  /** One more entry puts its lengths, its key and its value behind the others. */
  lemma {:induction false} ResponseLayout(status: Bytes, es: seq<ScanEntry>, e: ScanEntry)
    ensures EncodeEntries(es + [e]) == EncodeEntries(es) + (LittleEndian(|e.key|, 4) + LittleEndian(|e.value|, 4) + e.key + e.value)
    ensures EncodeResponse(Response(status, es)) == [|status| % 256] + status + LittleEndian(|es|, 4) + EncodeEntries(es)
  {
    EntriesAppend(es, [e]);
    assert [e][1..] == [];
  }

  /** The first loop: the exact size. */
  method ResponseSize(r: Response) returns (size: nat)
    ensures size == |EncodeResponse(r)|
  {
    size := 1 + |r.status| + 4;
    for i := 0 to |r.entries|
      invariant size == 5 + |r.status| + |EncodeEntries(r.entries[..i])|
    {
      NextEntry(r.entries, i);
      size := size + (8 + |r.entries[i].key| + |r.entries[i].value|);
    }
    assert r.entries[..|r.entries|] == r.entries;
  }

  /** One buffer of that size, which ends up exactly full. */
  method EncodeScanResponse(r: Response) returns (buf: array<byte>)
    ensures fresh(buf) && buf[..] == EncodeResponse(r)
  {
    var size := ResponseSize(r);
    buf := new byte[size];
    var off := CopyAt(buf, 0, [|r.status| % 256]);
    off := CopyAt(buf, off, r.status);
    off := CopyAt(buf, off, LittleEndian(|r.entries|, 4));
    off := WriteEntries(buf, off, r.entries);
    assert buf[..] == buf[..off];
  }

  /** The second loop. */
  method WriteEntries(buf: array<byte>, start: nat, entries: seq<ScanEntry>) returns (off: nat)
    requires start + |EncodeEntries(entries)| <= buf.Length
    modifies buf
    ensures off == start + |EncodeEntries(entries)| && buf[..off] == old(buf[..start]) + EncodeEntries(entries)
  {
    off := start;
    ghost var done: Bytes := [];
    for i := 0 to |entries|
      invariant done == EncodeEntries(entries[..i])
      invariant off == start + |done| <= buf.Length && buf[..off] == old(buf[..start]) + done
    {
      NextEntry(entries, i);
      off := WriteEntry(buf, off, entries[i]);
      done := done + EncodeEntry(entries[i]);
    }
    assert entries[..|entries|] == entries;
  }

  method WriteEntry(buf: array<byte>, start: nat, e: ScanEntry) returns (off: nat)
    requires start + |EncodeEntry(e)| <= buf.Length
    modifies buf
    ensures off == start + |EncodeEntry(e)| && buf[..off] == old(buf[..start]) + EncodeEntry(e)
  {
    off := CopyAt(buf, start, LittleEndian(|e.key|, 4));
    off := CopyAt(buf, off, LittleEndian(|e.value|, 4));
    off := CopyAt(buf, off, e.key);
    off := CopyAt(buf, off, e.value);
  }

  datatype Parsed = Parsed(entry: ScanEntry, length: nat)

  function ReadEntry(data: Bytes): (p: Option<Parsed>)
    ensures p.Some? ==> 8 <= p.value.length <= |data|
  {
    if |data| < 8 then None
    else
      var keyLen := FromLittleEndian(data[0..4]);
      var valueLen := FromLittleEndian(data[4..8]);
      if 8 + keyLen + valueLen > |data| then None
      else Some(Parsed(ScanEntry(data[8..8 + keyLen], data[8 + keyLen..8 + keyLen + valueLen]), 8 + keyLen + valueLen))
  }

  function DecodeEntries(data: Bytes, count: nat): Option<seq<ScanEntry>> {
    if count == 0 then Some([])
    else match ReadEntry(data)
      case None => None
      case Some(p) =>
        match DecodeEntries(data[p.length..], count - 1)
        case None => None
        case Some(rest) => Some([p.entry] + rest)
  }

  function DecodeResponse(payload: Bytes): Option<Response> {
    if |payload| < 1 || 1 + payload[0] + 4 > |payload| then None
    else
      var statusLen: nat := payload[0];
      var at := 1 + statusLen;
      match DecodeEntries(payload[at + 4..], FromLittleEndian(payload[at..at + 4]))
      case None => None
      case Some(es) => Some(Response(payload[1..at], es))
  }

  method DecodeScanResponse(payload: Bytes) returns (r: Option<Response>)
    ensures r == DecodeResponse(payload)
  {
    if |payload| < 1 {
      return None;
    }
    var off: nat := 1;
    var statusLen: nat := payload[0];
    if off + statusLen + 4 > |payload| {
      return None;
    }
    var status := payload[off..off + statusLen];
    off := off + statusLen;
    var count := FromLittleEndian(payload[off..off + 4]);
    var entries := ReadEntries(payload, off + 4, count);
    match entries {
      case None => return None;
      case Some(es) => return Some(Response(status, es));
    }
  }

  /** The entry loop, with its moving offset. */
  method ReadEntries(payload: Bytes, start: nat, count: nat) returns (r: Option<seq<ScanEntry>>)
    requires start <= |payload|
    ensures r == DecodeEntries(payload[start..], count)
  {
    var off: nat := start;
    var entries: seq<ScanEntry> := [];
    ghost var want := DecodeEntries(payload[start..], count);
    PrependNothing(want);
    for i := 0 to count
      invariant off <= |payload|
      invariant want == Prepend(entries, DecodeEntries(payload[off..], count - i))
    {
      var p := ReadEntry(payload[off..]);
      if p == None {
        return None;
      }
      assert payload[off..][p.value.length..] == payload[off + p.value.length..];
      PrependStep(entries, p.value.entry, DecodeEntries(payload[off + p.value.length..], count - i - 1));
      entries := entries + [p.value.entry];
      off := off + p.value.length;
    }
    assert entries + [] == entries;
    return Some(entries);
  }

  function Prepend(es: seq<ScanEntry>, r: Option<seq<ScanEntry>>): Option<seq<ScanEntry>> {
    if r == None then None else Some(es + r.value)
  }

  lemma {:induction false} PrependNothing(r: Option<seq<ScanEntry>>)
    ensures Prepend([], r) == r
  {
    if r.Some? {
      assert [] + r.value == r.value;
    }
  }

  lemma {:induction false} PrependStep(es: seq<ScanEntry>, e: ScanEntry, r: Option<seq<ScanEntry>>)
    ensures Prepend(es, Prepend([e], r)) == Prepend(es + [e], r)
  {
    if r.Some? {
      assert es + ([e] + r.value) == (es + [e]) + r.value;
    }
  }

  predicate FitsEntry(e: ScanEntry) {
    |e.key| < TWO32 && |e.value| < TWO32
  }

  predicate Fits(r: Response) {
    && |r.status| < 256 && |r.entries| < TWO32
    && (forall i :: 0 <= i < |r.entries| ==> FitsEntry(r.entries[i]))
  }

  lemma {:induction false} EntryFields(e: ScanEntry, data: Bytes)
    requires FitsEntry(e) && EntryHeader(e) <= data
    ensures FromLittleEndian(data[0..4]) == |e.key| && FromLittleEndian(data[4..8]) == |e.value|
  {
    Widths();
    LittleEndianRoundTrip(|e.key|, 4);
    LittleEndianRoundTrip(|e.value|, 4);
    var h := EntryHeader(e);
    assert data[..8] == h;
    assert data[0..4] == h[0..4] == LittleEndian(|e.key|, 4);
    assert data[4..8] == h[4..8] == LittleEndian(|e.value|, 4);
  }

  lemma {:induction false} WholeEntryReads(e: ScanEntry, rest: Bytes)
    requires FitsEntry(e)
    ensures ReadEntry(EncodeEntry(e) + rest) == Some(Parsed(e, |EncodeEntry(e)|))
  {
    var data := EncodeEntry(e) + rest;
    assert data[..8] == EntryHeader(e);
    EntryFields(e, data);
    assert data[8..8 + |e.key|] == e.key;
    assert data[8 + |e.key|..8 + |e.key| + |e.value|] == e.value;
  }

  lemma {:induction false} CutEntryIsRejected(e: ScanEntry, cut: nat)
    requires FitsEntry(e) && cut < |EncodeEntry(e)|
    ensures ReadEntry(EncodeEntry(e)[..cut]) == None
  {
    var data := EncodeEntry(e)[..cut];
    if cut >= 8 {
      assert data[..8] == EntryHeader(e);
      EntryFields(e, data);
    }
  }

  lemma {:induction false} EntriesRoundTrip(es: seq<ScanEntry>, junk: Bytes)
    requires forall i :: 0 <= i < |es| ==> FitsEntry(es[i])
    ensures DecodeEntries(EncodeEntries(es) + junk, |es|) == Some(es)
  {
    if es != [] {
      var one, rest := EncodeEntry(es[0]), EncodeEntries(es[1..]) + junk;
      assert EncodeEntries(es) + junk == one + rest;
      WholeEntryReads(es[0], rest);
      assert (one + rest)[|one|..] == rest;
      EntriesRoundTrip(es[1..], junk);
      assert [es[0]] + es[1..] == es;
    }
  }

  lemma {:induction false} CutEntriesAreRejected(es: seq<ScanEntry>, cut: nat)
    requires (forall i :: 0 <= i < |es| ==> FitsEntry(es[i])) && cut < |EncodeEntries(es)|
    ensures DecodeEntries(EncodeEntries(es)[..cut], |es|) == None
  {
    var n := |EncodeEntry(es[0])|;
    if cut < n {
      assert EncodeEntries(es)[..cut] == EncodeEntry(es[0])[..cut];
      CutEntryIsRejected(es[0], cut);
    } else {
      var rest := EncodeEntries(es[1..])[..cut - n];
      assert EncodeEntries(es)[..cut] == EncodeEntry(es[0]) + rest;
      WholeEntryReads(es[0], rest);
      assert (EncodeEntry(es[0]) + rest)[n..] == rest;
      CutEntriesAreRejected(es[1..], cut - n);
    }
  }

  lemma {:induction false} ResponseSlices(r: Response, body: Bytes)
    requires Fits(r)
    ensures var data := [|r.status| % 256] + r.status + LittleEndian(|r.entries|, 4) + body;
            var at := 1 + |r.status|;
            && data[0] == |r.status| && data[1..at] == r.status
            && FromLittleEndian(data[at..at + 4]) == |r.entries| && data[at + 4..] == body
  {
    Widths();
    LittleEndianRoundTrip(|r.entries|, 4);
    var data := [|r.status| % 256] + r.status + LittleEndian(|r.entries|, 4) + body;
    var at := 1 + |r.status|;
    assert data[at..at + 4] == LittleEndian(|r.entries|, 4);
  }

  lemma {:induction false} DecodedEntriesFit(data: Bytes, count: nat)
    ensures var r := DecodeEntries(data, count);
            r.Some? ==> |r.value| == count && forall i :: 0 <= i < count ==> FitsEntry(r.value[i])
  {
    if count > 0 && ReadEntry(data).Some? {
      LengthFits(data, 0);
      LengthFits(data, 4);
      DecodedEntriesFit(data[ReadEntry(data).value.length..], count - 1);
    }
  }

  lemma {:induction false} DecodedFits(payload: Bytes)
    ensures DecodeResponse(payload).Some? ==> Fits(DecodeResponse(payload).value)
  {
    if DecodeResponse(payload).Some? {
      var statusLen: nat := payload[0];
      var at := 1 + statusLen;
      LengthFits(payload, at);
      DecodedEntriesFit(payload[at + 4..], FromLittleEndian(payload[at..at + 4]));
    }
  }

  /** A response decodes to what was encoded exactly when its status is below 256 bytes and its other
      lengths fit their fields. */
  lemma {:induction false} ResponseRoundTrip(r: Response)
    ensures DecodeResponse(EncodeResponse(r)) == Some(r) <==> Fits(r)
  {
    if Fits(r) {
      RestIsIgnored(r, []);
      assert EncodeResponse(r) + [] == EncodeResponse(r);
    } else {
      DecodedFits(EncodeResponse(r));
    }
  }

  /** Bytes behind a whole response are not looked at. */
  lemma {:induction false} RestIsIgnored(r: Response, junk: Bytes)
    requires Fits(r)
    ensures DecodeResponse(EncodeResponse(r) + junk) == Some(r)
  {
    var body := EncodeEntries(r.entries) + junk;
    assert EncodeResponse(r) + junk == [|r.status| % 256] + r.status + LittleEndian(|r.entries|, 4) + body;
    ResponseSlices(r, body);
    EntriesRoundTrip(r.entries, junk);
  }

  /** Every strict prefix of an encoded response is rejected. */
  lemma {:induction false} ResponsePrefixIsRejected(r: Response, cut: nat)
    requires Fits(r) && cut < |EncodeResponse(r)|
    ensures DecodeResponse(EncodeResponse(r)[..cut]) == None
  {
    var head := 1 + |r.status| + 4;
    var data := EncodeResponse(r)[..cut];
    if 1 <= cut < head {
      assert data[0] == |r.status|;
    } else if cut >= head {
      var body := EncodeEntries(r.entries)[..cut - head];
      assert data == [|r.status| % 256] + r.status + LittleEndian(|r.entries|, 4) + body;
      ResponseSlices(r, body);
      CutEntriesAreRejected(r.entries, cut - head);
    }
  }
}
