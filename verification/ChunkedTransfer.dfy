/**
 * Chunked transfer coding in src/evhttp.c.bk: the decoder that is called again each time bytes
 * arrive, and the writer of chunks. The coding is that of RFC 2616, section 3.6.1.
 */
module ChunkedTransfer {
  import opened Wrappers
  import opened Seqs
  import opened HexTable

  const SIZE_T := 0x1_0000_0000_0000_0000
  const UNSIGNED := 0x1_0000_0000
  const LLONG_MAX := 0x7fff_ffff_ffff_ffff

  // ---------- strtoll ( p, &endp, 16 ) ----------

  predicate IsSpace(c: char) {
    c == ' ' || '\t' <= c <= '\r'
  }

  predicate IsHex(c: char) {
    '0' <= c <= '9' || 'a' <= c <= 'f' || 'A' <= c <= 'F'
  }

  function HexDigit(c: char): (d: nat)
    requires IsHex(c)
    ensures d < 16
  {
    if '0' <= c <= '9' then c as int - '0' as int
    else if 'a' <= c <= 'f' then c as int - 'a' as int + 10
    else c as int - 'A' as int + 10
  }

  function SkipSpaces(p: string): string {
    if p != [] && IsSpace(p[0]) then SkipSpaces(p[1..]) else p
  }

  function SkipPrefix(p: string): string {
    if |p| >= 3 && p[0] == '0' && (p[1] == 'x' || p[1] == 'X') && IsHex(p[2]) then p[2..] else p
  }

  // The leading hexadecimal digits
  function HexSpan(p: string): (n: nat)
    ensures n <= |p| && (forall i :: 0 <= i < n ==> IsHex(p[i])) && (n < |p| ==> !IsHex(p[n]))
  {
    if p != [] && IsHex(p[0]) then 1 + HexSpan(p[1..]) else 0
  }

  function HexValue(p: string): nat
    requires forall i :: 0 <= i < |p| ==> IsHex(p[i])
  {
    if p == [] then 0 else 16 * HexValue(p[..|p| - 1]) + HexDigit(p[|p| - 1])
  }

  // The value, which saturates, and the text from endp on
  function Strtoll16(p: string): (int, string) {
    var q := SkipSpaces(p);
    var negative := q != [] && q[0] == '-';
    var signed := q != [] && (q[0] == '-' || q[0] == '+');
    var digits := SkipPrefix(if signed then q[1..] else q);
    var n := HexSpan(digits);
    if n == 0 then (0, p)
    else
      var v := HexValue(digits[..n]);
      (if negative then (if v > LLONG_MAX + 1 then -LLONG_MAX - 1 else 0 - v)
       else if v > LLONG_MAX then LLONG_MAX else v,
       digits[n..])
  }

  // The size a non-empty line gives, unless it is malformed
  function ChunkSize(p: string): Option<nat> {
    var (ntoread, endp) := Strtoll16(p);
    if (endp != [] && endp[0] != ' ') || ntoread < 0 then None else Some(ntoread)
  }

  // ---------- the decoder as a function ----------

  // ntoread is -1 between chunks
  datatype Reading = Reading(ntoread: int, bodySize: nat, input: string) {
    predicate Valid() {
      ntoread != 0
    }
  }

  datatype Status = AllDataRead | MoreDataExpected | DataCorrupted | DataTooLong

  datatype Outcome = Outcome(reading: Reading, buf: string, status: Status)

  function FirstLf(buf: string): (i: nat)
    ensures i <= |buf| && (i < |buf| ==> buf[i] == '\n') && forall k :: 0 <= k < i ==> buf[k] != '\n'
  {
    if buf == [] || buf[0] == '\n' then 0 else 1 + FirstLf(buf[1..])
  }

  // The C string that evbuffer_readln gives for a line that ends at position i
  function LineAt(buf: string, i: nat): string
    requires i < |buf|
  {
    CString(buf[..if i > 0 && buf[i - 1] == '\r' then i - 1 else i])
  }

  function CString(s: string): string {
    if s == [] || s[0] == '\0' then [] else [s[0]] + CString(s[1..])
  }

  function Read(r: Reading, buf: string, max: nat): (o: Outcome)
    requires r.Valid()
    ensures o.status == MoreDataExpected ==> o.reading.Valid()
    decreases |buf|, 1
  {
    if buf == [] then Outcome(r, buf, MoreDataExpected)
    else if r.ntoread < 0 then ReadSize(r, buf, max)
    else if |buf| < r.ntoread then Outcome(r, buf, MoreDataExpected)
    else Read(Reading(-1, r.bodySize, r.input + buf[..r.ntoread]), buf[r.ntoread..], max)
  }

  function ReadSize(r: Reading, buf: string, max: nat): (o: Outcome)
    requires r.Valid()
    ensures o.status == MoreDataExpected ==> o.reading.Valid()
    decreases |buf|, 0
  {
    var i := FirstLf(buf);
    if i == |buf| then Outcome(r, buf, MoreDataExpected)
    else
      var p, rest := LineAt(buf, i), buf[i + 1..];
      if p == [] then Read(r, rest, max)
      else
        match ChunkSize(p)
        case None => Outcome(r, rest, DataCorrupted)
        case Some(n) => Begin(r, n, rest, max)
  }

  function Begin(r: Reading, n: nat, rest: string, max: nat): (o: Outcome)
    requires r.Valid()
    ensures o.status == MoreDataExpected ==> o.reading.Valid()
    decreases |rest|, 2
  {
    var total := (r.bodySize + n % SIZE_T) % SIZE_T;
    if total > max then Outcome(r, rest, DataTooLong)
    else
      var r' := r.(ntoread := n, bodySize := total);
      if n == 0 then Outcome(r', rest, AllDataRead) else Read(r', rest, max)
  }

  // ---------- the classes ----------

  class EvBuffer {
    var data: string

    constructor (data: string)
      ensures this.data == data
    {
      this.data := data;
    }

    // evbuffer_readln with EVBUFFER_EOL_CRLF
    method Readln() returns (p: Option<string>)
      modifies this
      ensures var i := FirstLf(old(data));
              if i == |old(data)| then p == None && data == old(data)
              else p == Some(LineAt(old(data), i)) && data == old(data)[i + 1..]
    {
      var i := FirstLf(data);
      if i == |data| {
        return None;
      }
      p := Some(LineAt(data, i));
      data := data[i + 1..];
    }

    method Add(s: string)
      modifies this
      ensures data == old(data) + s
    {
      data := data + s;
    }

    // evbuffer_add_buffer: everything moves
    method AddBuffer(other: EvBuffer)
      requires other != this
      modifies this, other
      ensures data == old(data) + old(other.data) && other.data == []
    {
      data := data + other.data;
      other.data := [];
    }
  }

  class EvHttpRequest {
    var ntoread: int
    var bodySize: nat
    var inputBuffer: string
    const maxBodySize: nat

    constructor (maxBodySize: nat)
      ensures View() == Reading(-1, 0, []) && this.maxBodySize == maxBodySize
    {
      this.maxBodySize, ntoread, bodySize, inputBuffer := maxBodySize, -1, 0, [];
    }

    ghost function View(): Reading
      reads this
    {
      Reading(ntoread, bodySize, inputBuffer)
    }

    // evhttp_handle_chunked_read without a chunk callback
    method HandleChunkedRead(buf: EvBuffer) returns (status: Status)
      requires View().Valid()
      modifies this, buf
      ensures Outcome(View(), buf.data, status) == Read(old(View()), old(buf.data), maxBodySize)
      ensures status == MoreDataExpected ==> View().Valid()
    {
      hide LineAt, FirstLf, ChunkSize;
      while |buf.data| > 0
        invariant View().Valid()
        invariant Read(View(), buf.data, maxBodySize) == Read(old(View()), old(buf.data), maxBodySize)
        decreases |buf.data|
      {
        ghost var r, b := View(), buf.data;
        if ntoread < 0 {
          assert Read(r, b, maxBodySize) == ReadSize(r, b, maxBodySize);
          var p := buf.Readln();
          if p == None {
            break;
          }
          if p.value == [] {
            continue;
          }
          var size := ChunkSize(p.value);
          if size == None {
            return DataCorrupted;
          }
          assert ReadSize(r, b, maxBodySize) == Begin(r, size.value, buf.data, maxBodySize);
          var total := (bodySize + size.value % SIZE_T) % SIZE_T;
          if total > maxBodySize {
            return DataTooLong;
          }
          bodySize := total;
          ntoread := size.value;
          if ntoread == 0 {
            return AllDataRead;
          }
          continue;
        }
        if |buf.data| < ntoread {
          return MoreDataExpected;
        }
        inputBuffer := inputBuffer + buf.data[..ntoread];
        buf.data := buf.data[ntoread..];
        ntoread := -1;
      }
      status := MoreDataExpected;
    }
  }

  // ---------- the writer ----------

  function HexChar(d: nat): (c: char)
    requires d < 16
    ensures IsHex(c) && HexDigit(c) == d
  {
    if d < 10 then '0' + d as char else 'a' + (d - 10) as char
  }

  // printf's %x
  function Hex(n: nat): (s: string)
    ensures s != [] && forall i :: 0 <= i < |s| ==> IsHex(s[i])
  {
    if n < 16 then [HexChar(n)] else Hex(n / 16) + [HexChar(n % 16)]
  }

  // A chunk, followed by `tail`; its size is printed as an unsigned int.
  function PutChunk(data: string, tail: string): string {
    if data == [] then tail else Hex(|data| % UNSIGNED) + ("\r\n" + (data + ("\r\n" + tail)))
  }

  function PutChunks(chunks: seq<string>, tail: string): string {
    if chunks == [] then tail else PutChunk(chunks[0], PutChunks(chunks[1..], tail))
  }

  function Joined(parts: seq<string>): string {
    if parts == [] then [] else parts[0] + Joined(parts[1..])
  }

  class EvHttpReply {
    var chunked: bool
    var needsBody: bool
    const output: EvBuffer

    constructor (chunked: bool, needsBody: bool, output: EvBuffer)
      ensures this.chunked == chunked && this.needsBody == needsBody && this.output == output
    {
      this.chunked, this.needsBody, this.output := chunked, needsBody, output;
    }

    method SendReplyChunk(databuf: EvBuffer)
      requires databuf != output
      modifies output, databuf
      ensures output.data == old(output.data) +
        if !needsBody then [] else if chunked then PutChunk(old(databuf.data), []) else old(databuf.data)
      ensures databuf.data == if needsBody then [] else old(databuf.data)
    {
      if |databuf.data| == 0 {
        return;
      }
      if !needsBody {
        return;
      }
      if chunked {
        output.Add(Hex(|databuf.data| % UNSIGNED) + "\r\n");
      }
      output.AddBuffer(databuf);
      if chunked {
        output.Add("\r\n");
      }
    }

    method SendReplyEnd()
      modifies this, output
      ensures output.data == old(output.data) + if old(chunked) then "0\r\n\r\n" else []
      ensures !chunked && needsBody == old(needsBody)
    {
      if chunked {
        output.Add("0\r\n\r\n");
        chunked := false;
      }
    }
  }

  // ---------- the decoder does not see how its input is cut ----------

  // Reading a, and then, if more is expected, what is left of a with b behind it
  function ReadBoth(r: Reading, a: string, b: string, max: nat): Outcome
    requires r.Valid()
  {
    var o := Read(r, a, max);
    if o.status == MoreDataExpected then Read(o.reading, o.buf + b, max) else o.(buf := o.buf + b)
  }

  lemma {:induction false} SplitLaw(r: Reading, a: string, b: string, max: nat)
    requires r.Valid()
    ensures Read(r, a + b, max) == ReadBoth(r, a, b, max)
    decreases |a|, 1
  {
    if a == [] {
      assert a + b == b;
    } else if r.ntoread < 0 {
      SplitSize(r, a, b, max);
    } else if |a| >= r.ntoread {
      assert (a + b)[..r.ntoread] == a[..r.ntoread] && (a + b)[r.ntoread..] == a[r.ntoread..] + b;
      SplitLaw(Reading(-1, r.bodySize, r.input + a[..r.ntoread]), a[r.ntoread..], b, max);
    }
  }

  lemma {:induction false} SplitSize(r: Reading, a: string, b: string, max: nat)
    requires r.Valid() && r.ntoread < 0 && a != []
    ensures Read(r, a + b, max) == ReadBoth(r, a, b, max)
    decreases |a|, 0
  {
    var i := FirstLf(a);
    if i < |a| {
      assert (a + b)[i] == a[i] && forall k :: 0 <= k < i ==> (a + b)[k] == a[k];
      assert FirstLf(a + b) == i;
      assert (a + b)[i + 1..] == a[i + 1..] + b;
      SameLine(a, b, i);
      var p, rest := LineAt(a, i), a[i + 1..];
      assert ReadSize(r, a + b, max) == ReadLine(r, p, rest + b, max) && ReadSize(r, a, max) == ReadLine(r, p, rest, max);
      hide ChunkSize, LineAt, FirstLf;
      if p == [] {
        SplitLaw(r, rest, b, max);
      } else if ChunkSize(p).Some? {
        SplitBegin(r, ChunkSize(p).value, rest, b, max);
      }
    } else {
      assert Read(r, a, max) == Outcome(r, a, MoreDataExpected);
    }
  }

  // What happens once a line has been taken off the buffer
  function ReadLine(r: Reading, p: string, rest: string, max: nat): Outcome
    requires r.Valid()
  {
    if p == [] then Read(r, rest, max)
    else
      match ChunkSize(p)
      case None => Outcome(r, rest, DataCorrupted)
      case Some(n) => Begin(r, n, rest, max)
  }

  lemma {:induction false} SplitBegin(r: Reading, n: nat, rest: string, b: string, max: nat)
    requires r.Valid()
    ensures Begin(r, n, rest + b, max) ==
            var o := Begin(r, n, rest, max);
            if o.status == MoreDataExpected then Read(o.reading, o.buf + b, max) else o.(buf := o.buf + b)
    decreases |rest|, 2
  {
    var total := (r.bodySize + n % SIZE_T) % SIZE_T;
    if total <= max && n != 0 {
      SplitLaw(r.(ntoread := n, bodySize := total), rest, b, max);
    }
  }

  lemma SameLine(a: string, b: string, i: nat)
    requires i < |a|
    ensures LineAt(a + b, i) == LineAt(a, i)
  {
    assert (a + b)[..i] == a[..i];
    if i > 0 {
      assert (a + b)[..i - 1] == a[..i - 1];
    }
  }

  // The calls of the decoder as bytes arrive, until it is done or fails. Together with the bytes
  // that are left and those that have not arrived, the result is that of one call on everything.
  method Receive(req: EvHttpRequest, buf: EvBuffer, arrivals: seq<string>) returns (status: Status, k: nat)
    requires req.View().Valid() && buf.data == []
    modifies req, buf
    ensures k <= |arrivals| && (status == MoreDataExpected ==> k == |arrivals|)
    ensures Outcome(req.View(), buf.data + Joined(arrivals[k..]), status)
            == Read(old(req.View()), Joined(arrivals), req.maxBodySize)
  {
    k, status := 0, MoreDataExpected;
    ghost var r, all, max := req.View(), Joined(arrivals), req.maxBodySize;
    assert arrivals[0..] == arrivals && [] + all == all;
    while k < |arrivals|
      invariant k <= |arrivals| && req.View().Valid()
      invariant Read(r, all, max) == Read(req.View(), buf.data + Joined(arrivals[k..]), max)
      invariant Read(req.View(), buf.data, max) == Outcome(req.View(), buf.data, MoreDataExpected)
    {
      ghost var r0, b0 := req.View(), buf.data;
      assert arrivals[k..][0] == arrivals[k] && arrivals[k..][1..] == arrivals[k + 1..];
      buf.Add(arrivals[k]);
      k := k + 1;
      ghost var a := buf.data;
      Associative(b0, arrivals[k - 1], Joined(arrivals[k..]));
      status := req.HandleChunkedRead(buf);
      SplitLaw(r0, a, Joined(arrivals[k..]), max);
      if status != MoreDataExpected {
        return;
      }
      SplitLaw(r0, a, [], max);
      assert a + [] == a && buf.data + [] == buf.data;
    }
    status := MoreDataExpected;
    assert buf.data + Joined(arrivals[k..]) == buf.data;
  }

  // ---------- reading inverts writing ----------

  lemma {:induction false} HexValueBack(n: nat)
    ensures HexValue(Hex(n)) == n
  {
    if n < 16 {
      assert HexValue(Hex(n)[..0]) == 0;
    } else {
      HexValueBack(n / 16);
      assert Hex(n)[..|Hex(n)| - 1] == Hex(n / 16);
    }
  }

  // No leading zeros
  lemma {:induction false} HexIsShort(n: nat)
    ensures Hex(n)[0] == '0' <==> n == 0
  {
    if n >= 16 {
      HexIsShort(n / 16);
    }
  }

  lemma {:induction false} HexSpanAll(p: string)
    requires forall i :: 0 <= i < |p| ==> IsHex(p[i])
    ensures HexSpan(p) == |p| && CString(p) == p
  {
    if p != [] {
      HexSpanAll(p[1..]);
    }
  }

  lemma ChunkSizeBack(n: nat)
    requires n <= LLONG_MAX
    ensures ChunkSize(Hex(n)) == Some(n)
  {
    var p := Hex(n);
    HexSpanAll(p);
    HexValueBack(n);
    hide Hex, HexValue, HexSpan, HexDigit;
    NothingToSkip(p);
    hide SkipSpaces, SkipPrefix, IsHex;
    assert p[..|p|] == p && p[|p|..] == [];
  }

  lemma NothingToSkip(p: string)
    requires p != [] && forall i :: 0 <= i < |p| ==> IsHex(p[i])
    ensures SkipSpaces(p) == p && SkipPrefix(p) == p && p[0] != '-' && p[0] != '+'
  {
    assert IsHex(p[0]);
    if |p| >= 2 {
      assert IsHex(p[1]);
    }
  }

  // A size line is read as the size.
  lemma SizeLine(r: Reading, n: nat, rest: string, max: nat)
    requires r.ntoread == -1 && n <= LLONG_MAX
    ensures Read(r, Hex(n) + ("\r\n" + rest), max) == Begin(r, n, rest, max)
  {
    var p := Hex(n);
    var buf := p + ("\r\n" + rest);
    var i := |p| + 1;
    assert buf[i] == '\n' && buf[i - 1] == '\r' && forall k :: 0 <= k < |p| ==> buf[k] == p[k];
    assert FirstLf(buf) == i;
    assert buf[..i - 1] == p && buf[i + 1..] == rest;
    HexSpanAll(p);
    ChunkSizeBack(n);
    hide Hex, ChunkSize, Begin;
    assert LineAt(buf, i) == p;
  }

  lemma BlankLine(r: Reading, rest: string, max: nat)
    requires r.ntoread == -1
    ensures Read(r, "\r\n" + rest, max) == Read(r, rest, max)
  {
    var buf := "\r\n" + rest;
    assert FirstLf(buf) == 1 && buf[..0] == [] && buf[2..] == rest;
  }

  lemma OneChunk(r: Reading, data: string, tail: string, max: nat)
    requires r.ntoread == -1 && 0 < |data| < UNSIGNED && r.bodySize + |data| < SIZE_T
    ensures Read(r, PutChunk(data, tail), max) ==
            if r.bodySize + |data| > max then Outcome(r, data + ("\r\n" + tail), DataTooLong)
            else Read(Reading(-1, r.bodySize + |data|, r.input + data), tail, max)
  {
    hide Hex, Read, Begin, PutChunk;
    var rest := data + ("\r\n" + tail);
    ShortChunk(data, tail);
    SizeLine(r, |data|, rest, max);
    BeginAt(r, |data|, rest, max);
    if r.bodySize + |data| <= max {
      ChunkData(Reading(|data|, r.bodySize + |data|, r.input), data, tail, max);
    }
  }

  lemma ShortChunk(data: string, tail: string)
    requires 0 < |data| < UNSIGNED
    ensures PutChunk(data, tail) == Hex(|data|) + ("\r\n" + (data + ("\r\n" + tail)))
  {
    hide Hex;
    var n := |data| % UNSIGNED;
    assert n == |data|;
    assert Hex(n) == Hex(|data|);
  }

  lemma BeginAt(r: Reading, n: nat, rest: string, max: nat)
    requires r.Valid() && n > 0 && r.bodySize + n < SIZE_T
    ensures Begin(r, n, rest, max) ==
            if r.bodySize + n > max then Outcome(r, rest, DataTooLong)
            else Read(Reading(n, r.bodySize + n, r.input), rest, max)
  {
    hide Read;
  }

  lemma ChunkData(r: Reading, data: string, tail: string, max: nat)
    requires r.ntoread == |data| > 0
    ensures Read(r, data + ("\r\n" + tail), max) == Read(Reading(-1, r.bodySize, r.input + data), tail, max)
  {
    var rest := data + ("\r\n" + tail);
    assert rest[..|data|] == data && rest[|data|..] == "\r\n" + tail;
    assert Read(r, rest, max) == Read(Reading(-1, r.bodySize, r.input + data), "\r\n" + tail, max);
    BlankLine(Reading(-1, r.bodySize, r.input + data), tail, max);
  }

  ghost predicate Short(chunks: seq<string>) {
    forall i :: 0 <= i < |chunks| ==> |chunks[i]| < UNSIGNED
  }

  lemma {:induction false} ChunksRead(r: Reading, chunks: seq<string>, tail: string, max: nat)
    requires r.ntoread == -1 && Short(chunks) && r.bodySize + |Joined(chunks)| < SIZE_T
    requires r.bodySize <= max
    ensures r.bodySize + |Joined(chunks)| <= max ==>
              Read(r, PutChunks(chunks, tail), max)
              == Read(Reading(-1, r.bodySize + |Joined(chunks)|, r.input + Joined(chunks)), tail, max)
    ensures r.bodySize + |Joined(chunks)| > max ==> Read(r, PutChunks(chunks, tail), max).status == DataTooLong
    decreases |chunks|
  {
    hide PutChunk, Read;
    if chunks == [] {
      assert r.input + [] == r.input;
    } else {
      var c, rest := chunks[0], PutChunks(chunks[1..], tail);
      if c == [] {
        assert PutChunk(c, rest) == rest by { NoChunk(rest); }
        assert Joined(chunks) == Joined(chunks[1..]);
        ChunksRead(r, chunks[1..], tail, max);
      } else {
        OneChunk(r, c, rest, max);
        if r.bodySize + |c| <= max {
          ChunksRead(Reading(-1, r.bodySize + |c|, r.input + c), chunks[1..], tail, max);
          Associative(r.input, c, Joined(chunks[1..]));
        }
      }
    }
  }

  lemma NoChunk(rest: string)
    ensures PutChunk([], rest) == rest
  {
  }

  lemma LastChunk(r: Reading, tail: string, max: nat)
    requires r.ntoread == -1 && r.bodySize <= max < SIZE_T
    ensures Read(r, "0\r\n" + tail, max) == Outcome(r.(ntoread := 0), tail, AllDataRead)
  {
    hide Read, Hex;
    HexZero(tail);
    SizeLine(r, 0, tail, max);
  }

  lemma HexZero(tail: string)
    ensures "0\r\n" + tail == Hex(0) + ("\r\n" + tail)
  {
    assert Hex(0) == "0";
  }

  // Everything the writer sends for a body of short chunks is collected, counted, and read up to
  // the trailer, exactly when the body is within the limit.
  lemma BodyRead(chunks: seq<string>, trailer: string, max: nat)
    requires Short(chunks) && |Joined(chunks)| < SIZE_T && max < SIZE_T
    ensures var o := Read(Reading(-1, 0, []), PutChunks(chunks, "0\r\n" + trailer), max);
            && (o.status == AllDataRead <==> |Joined(chunks)| <= max)
            && (o.status != AllDataRead ==> o.status == DataTooLong)
            && (o.status == AllDataRead ==> o == Outcome(Reading(0, |Joined(chunks)|, Joined(chunks)), trailer, AllDataRead))
  {
    hide Read, PutChunks;
    ChunksRead(Reading(-1, 0, []), chunks, "0\r\n" + trailer, max);
    if |Joined(chunks)| <= max {
      assert [] + Joined(chunks) == Joined(chunks);
      LastChunk(Reading(-1, |Joined(chunks)|, Joined(chunks)), trailer, max);
    }
  }

  // Before the zero chunk has arrived in full, more is expected.
  lemma OnlyAfterZeroChunk(chunks: seq<string>, max: nat, p: string, q: string)
    requires Short(chunks) && |Joined(chunks)| <= max < SIZE_T
    requires p + q == PutChunks(chunks, "0\r\n") && q != []
    ensures Read(Reading(-1, 0, []), p, max).status == MoreDataExpected
  {
    hide Read, PutChunks;
    BodyRead(chunks, [], max);
    assert "0\r\n" + [] == "0\r\n";
    SplitLaw(Reading(-1, 0, []), p, q, max);
  }

  // The writer announces the size of a chunk exactly when it fits an unsigned int.
  lemma AnnouncedSize(data: string)
    requires data != []
    ensures ChunkSize(Hex(|data| % UNSIGNED)) == Some(|data|) <==> |data| < UNSIGNED
  {
    hide Hex, ChunkSize;
    var n := |data|;
    var m := n % UNSIGNED;
    ChunkSizeBack(m);
    assert m == n <==> n < UNSIGNED;
  }

  // A chunk of a multiple of 2^32 bytes is announced as the last chunk, and its data is lost.
  lemma LongChunkIsLost(data: string, tail: string, max: nat)
    requires |data| > 0 && |data| % UNSIGNED == 0 && max < SIZE_T
    ensures Read(Reading(-1, 0, []), PutChunk(data, tail), max)
            == Outcome(Reading(0, 0, []), data + ("\r\n" + tail), AllDataRead)
  {
    SizeLine(Reading(-1, 0, []), 0, data + ("\r\n" + tail), max);
    hide Hex;
  }

  // ---------- every spelling of a size ----------

  // A size line: white space, a sign, a prefix, digits of either case, and what is behind them
  datatype SizeText = SizeText(blanks: string, sign: string, prefix: string, digits: seq<(nat, bool)>, tail: string) {
    predicate Valid() {
      && (forall i :: 0 <= i < |blanks| ==> blanks[i] in [' ', '\t', '\n', '\r', 0xb as char, 0xc as char])
      && sign in ["", "+", "-"] && prefix in ["", "0x", "0X"]
      && digits != [] && (forall i :: 0 <= i < |digits| ==> digits[i].0 < 16)
      && (tail != [] ==> tail[0] !in LOWER_DIGITS && tail[0] !in UPPER_DIGITS)
      && (prefix == "" && |digits| == 1 && digits[0].0 == 0 && |tail| >= 2 && tail[0] in ['x', 'X'] ==>
            tail[1] !in LOWER_DIGITS && tail[1] !in UPPER_DIGITS)
    }

    function Text(): string
      requires Valid()
    {
      blanks + (sign + (prefix + (DigitsText(digits) + tail)))
    }
  }

  function DigitsText(ds: seq<(nat, bool)>): string
    requires forall i :: 0 <= i < |ds| ==> ds[i].0 < 16
  {
    seq(|ds|, i requires 0 <= i < |ds| => HexAt(ds[i].0, ds[i].1))
  }

  function DigitsValue(ds: seq<(nat, bool)>): nat {
    if ds == [] then 0 else 16 * DigitsValue(ds[..|ds| - 1]) + ds[|ds| - 1].0
  }

  lemma HexAtIs(d: nat, upper: bool)
    requires d < 16
    ensures IsHex(HexAt(d, upper)) && HexDigit(HexAt(d, upper)) == d && !IsSpace(HexAt(d, upper))
    ensures HexAt(d, upper) !in ['+', '-', 'x', 'X'] && (HexAt(d, upper) == '0' <==> d == 0)
  {
  }

  lemma HexIsInTable(c: char)
    ensures IsHex(c) <==> c in LOWER_DIGITS || c in UPPER_DIGITS
  {
    if IsHex(c) {
      if c <= '9' {
        assert LOWER_DIGITS[c as int - '0' as int] == c;
      } else if c >= 'a' {
        assert LOWER_DIGITS[c as int - 'a' as int + 10] == c;
      } else {
        assert UPPER_DIGITS[c as int - 'A' as int + 10] == c;
      }
    }
  }

  lemma {:induction false} DigitsRead(ds: seq<(nat, bool)>)
    requires forall i :: 0 <= i < |ds| ==> ds[i].0 < 16
    ensures var t := DigitsText(ds);
            && |t| == |ds| && (forall i :: 0 <= i < |t| ==> IsHex(t[i])) && HexValue(t) == DigitsValue(ds)
            && (ds != [] ==> t[0] == HexAt(ds[0].0, ds[0].1))
    decreases |ds|
  {
    var t := DigitsText(ds);
    forall i | 0 <= i < |t| ensures IsHex(t[i]) {
      HexAtIs(ds[i].0, ds[i].1);
    }
    if ds != [] {
      var n := |ds| - 1;
      DigitsRead(ds[..n]);
      assert t[..n] == DigitsText(ds[..n]);
      HexAtIs(ds[n].0, ds[n].1);
    }
  }

  lemma {:induction false} HexSpanOf(d: string, tail: string)
    requires forall i :: 0 <= i < |d| ==> IsHex(d[i])
    requires tail != [] ==> !IsHex(tail[0])
    ensures HexSpan(d + tail) == |d|
    decreases |d|
  {
    if d == [] {
      assert d + tail == tail;
    } else {
      HexSpanOf(d[1..], tail);
      assert (d + tail)[1..] == d[1..] + tail;
    }
  }

  lemma {:induction false} SpacesSkipped(blanks: string, rest: string)
    requires forall i :: 0 <= i < |blanks| ==> blanks[i] in [' ', '\t', '\n', '\r', 0xb as char, 0xc as char]
    requires rest != [] && !IsSpace(rest[0])
    ensures SkipSpaces(blanks + rest) == rest
    decreases |blanks|
  {
    if blanks == [] {
      assert blanks + rest == rest;
    } else {
      SpacesSkipped(blanks[1..], rest);
      assert (blanks + rest)[0] == blanks[0] && (blanks + rest)[1..] == blanks[1..] + rest;
    }
  }

  lemma SecondDigit(ds: seq<(nat, bool)>)
    requires |ds| > 1 && forall i :: 0 <= i < |ds| ==> ds[i].0 < 16
    ensures DigitsText(ds)[1] == HexAt(ds[1].0, ds[1].1)
  {
  }

  // The prefix is skipped, and nothing that only looks like one.
  lemma PrefixSkipped(t: SizeText)
    requires t.Valid()
    ensures var d := DigitsText(t.digits) + t.tail;
            SkipPrefix(t.prefix + d) == d && d != []
  {
    var digits := DigitsText(t.digits);
    var d := digits + t.tail;
    DigitsRead(t.digits);
    HexAtIs(t.digits[0].0, t.digits[0].1);
    assert d[0] == digits[0] && IsHex(d[0]);
    if t.prefix == "" {
      assert t.prefix + d == d;
      NoPrefix(t);
    } else {
      hide HexAt, DigitsText, DigitsValue, HexValue, IsHex;
      assert (t.prefix + d)[2..] == d && (t.prefix + d)[2] == d[0];
    }
  }

  lemma NoPrefix(t: SizeText)
    requires t.Valid() && t.prefix == ""
    ensures var d := DigitsText(t.digits) + t.tail; SkipPrefix(d) == d
  {
    var digits := DigitsText(t.digits);
    var d := digits + t.tail;
    DigitsRead(t.digits);
    HexAtIs(t.digits[0].0, t.digits[0].1);
    if |digits| > 1 {
      HexAtIs(t.digits[1].0, t.digits[1].1);
      assert d[1] == digits[1];
      SecondDigit(t.digits);
      hide HexAt, DigitsText, DigitsValue, HexValue, IsHex;
    } else if |t.tail| >= 2 {
      assert d[0] == digits[0] && d[1] == t.tail[0] && d[2] == t.tail[1];
      HexIsInTable(t.tail[1]);
      hide HexAt, DigitsText, DigitsValue, HexValue, IsHex;
    }
  }

  // strtoll on every spelling of a number: the value saturates, and endp is behind the digits.
  lemma StrtollSpelled(t: SizeText)
    requires t.Valid()
    ensures var v := DigitsValue(t.digits);
            Strtoll16(t.Text()) ==
            (if t.sign == "-" then (if v <= 0x8000_0000_0000_0000 then 0 - v else -0x8000_0000_0000_0000)
             else if v < 0x8000_0000_0000_0000 then v else 0x7fff_ffff_ffff_ffff, t.tail)
  {
    hide *;
    SizeParts(t);
    var digits := DigitsText(t.digits);
    var signed := t.sign + (t.prefix + (digits + t.tail));
    SignedHead(t);
    PrefixSkipped(t);
    DigitsRead(t.digits);
    SpacesSkipped(t.blanks, signed);
    HexSpanOf(digits, t.tail);
    StrtollOf(t.Text(), signed, t.prefix + (digits + t.tail), digits, t.tail);
  }

  lemma SizeParts(t: SizeText)
    requires t.Valid()
    ensures t.digits != [] && forall i :: 0 <= i < |t.digits| ==> t.digits[i].0 < 16
  {
    hide SizeText.Text;
  }

  // strtoll, once it is known what stands where
  lemma StrtollOf(p: string, signed: string, prefixed: string, digits: string, tail: string)
    requires SkipSpaces(p) == signed != [] && prefixed == (if signed[0] == '-' || signed[0] == '+' then signed[1..] else signed)
    requires SkipPrefix(prefixed) == digits + tail && digits != [] && HexSpan(digits + tail) == |digits|
    requires forall i :: 0 <= i < |digits| ==> IsHex(digits[i])
    ensures var v := HexValue(digits);
            Strtoll16(p) ==
            (if signed[0] == '-' then (if v <= 0x8000_0000_0000_0000 then 0 - v else -0x8000_0000_0000_0000)
             else if v < 0x8000_0000_0000_0000 then v else 0x7fff_ffff_ffff_ffff, tail)
  {
    hide SkipSpaces, SkipPrefix, HexSpan, HexValue, IsHex;
    var d := digits + tail;
    assert d[..|digits|] == digits && d[|digits|..] == tail;
  }

  lemma SignedHead(t: SizeText)
    requires t.Valid()
    ensures var signed := t.sign + (t.prefix + (DigitsText(t.digits) + t.tail));
            var prefixed := t.prefix + (DigitsText(t.digits) + t.tail);
            && signed != [] && !IsSpace(signed[0]) && (signed[0] == '-' <==> t.sign == "-") && (signed[0] == '+' <==> t.sign == "+")
            && prefixed == (if signed[0] == '-' || signed[0] == '+' then signed[1..] else signed)
            && t.Text() == t.blanks + signed
            && (t.tail != [] ==> !IsHex(t.tail[0]))
            && (forall i :: 0 <= i < |t.blanks| ==> t.blanks[i] in [' ', '\t', '\n', '\r', 0xb as char, 0xc as char])
  {
    var digits := DigitsText(t.digits);
    var prefixed := t.prefix + (digits + t.tail);
    DigitsRead(t.digits);
    HexAtIs(t.digits[0].0, t.digits[0].1);
    if t.tail != [] {
      HexIsInTable(t.tail[0]);
    }
    hide HexAt, DigitsText, DigitsValue, HexValue, IsHex;
    assert (digits + t.tail)[0] == digits[0];
    assert t.sign == "" ==> t.sign + prefixed == prefixed;
    assert t.sign != "" ==> (t.sign + prefixed)[1..] == prefixed;
  }

  // Which size lines are taken, and as what: a negative size is malformed, and so is anything
  // but a space behind the digits.
  lemma SizeSpelled(t: SizeText)
    requires t.Valid()
    ensures var v := DigitsValue(t.digits);
            ChunkSize(t.Text()) ==
            if (t.tail != [] && t.tail[0] != ' ') || (t.sign == "-" && v > 0) then None
            else Some(if v < 0x8000_0000_0000_0000 then v else 0x7fff_ffff_ffff_ffff)
  {
    StrtollSpelled(t);
    hide Strtoll16, DigitsValue;
  }

  // A line without digits is malformed, unless it begins with a space: then it counts as 0.
  lemma SizeMissing(blanks: string, sign: string, rest: string)
    requires forall i :: 0 <= i < |blanks| ==> blanks[i] in [' ', '\t', '\n', '\r', 0xb as char, 0xc as char]
    requires sign in ["", "+", "-"] && blanks + (sign + rest) != []
    requires rest != [] ==> rest[0] !in LOWER_DIGITS && rest[0] !in UPPER_DIGITS
    requires sign == "" && rest != [] ==> rest[0] !in ['+', '-', ' ', '\t', '\n', '\r', 0xb as char, 0xc as char]
    ensures var p := blanks + (sign + rest);
            ChunkSize(p) == if p[0] == ' ' then Some(0) else None
  {
    var p, q := blanks + (sign + rest), sign + rest;
    if rest != [] {
      HexIsInTable(rest[0]);
    }
    if q == [] {
      AllSpacesSkipped(blanks);
      assert p == blanks;
    } else {
      SpacesSkipped(blanks, q);
    }
    hide SkipSpaces;
    assert sign != "" ==> q[1..] == rest;
    assert sign == "" ==> q == rest;
  }

  lemma {:induction false} AllSpacesSkipped(blanks: string)
    requires forall i :: 0 <= i < |blanks| ==> blanks[i] in [' ', '\t', '\n', '\r', 0xb as char, 0xc as char]
    ensures SkipSpaces(blanks) == []
    decreases |blanks|
  {
    if blanks != [] {
      AllSpacesSkipped(blanks[1..]);
    }
  }

  // A line end: the decoder takes LF with or without CR.
  predicate LineEnd(eol: string) {
    eol == "\n" || eol == "\r\n"
  }

  // A line without LF, CR and NUL is taken off the buffer as it is.
  lemma LineTaken(p: string, eol: string, rest: string)
    requires '\n' !in p && '\r' !in p && '\0' !in p && LineEnd(eol)
    ensures var buf := p + (eol + rest);
            var i := FirstLf(buf);
            i < |buf| && LineAt(buf, i) == p && buf[i + 1..] == rest
  {
    var buf := p + (eol + rest);
    var i := |p| + |eol| - 1;
    assert buf[i] == '\n' && forall k :: 0 <= k < |p| ==> buf[k] == p[k];
    assert eol == "\r\n" ==> buf[|p|] == '\r';
    assert FirstLf(buf) == i && buf[i + 1..] == rest;
    hide FirstLf;
    assert p != [] && eol == "\n" ==> buf[i - 1] == p[|p| - 1];
    assert buf[..|p|] == p;
    NulFree(p);
  }

  lemma {:induction false} NulFree(p: string)
    requires '\0' !in p
    ensures CString(p) == p
  {
    if p != [] {
      NulFree(p[1..]);
    }
  }

  // A chunk in any spelling, read from any state between chunks
  lemma SpelledChunk(r: Reading, t: SizeText, eol: string, data: string, tail: string, max: nat)
    requires r.ntoread == -1 && t.Valid() && LineEnd(eol)
    requires '\n' !in t.Text() && '\r' !in t.Text() && '\0' !in t.Text()
    requires t.sign != "-" && (t.tail == [] || t.tail[0] == ' ')
    requires 0 < |data| == DigitsValue(t.digits) <= LLONG_MAX && r.bodySize + |data| < SIZE_T
    ensures Read(r, t.Text() + (eol + (data + ("\r\n" + tail))), max) ==
            if r.bodySize + |data| > max then Outcome(r, data + ("\r\n" + tail), DataTooLong)
            else Read(Reading(-1, r.bodySize + |data|, r.input + data), tail, max)
  {
    hide ChunkSize, LineAt, FirstLf, Begin, DigitsValue, SizeText.Text, SizeText.Valid, Read, LineEnd, HexAt, DigitsText;
    var rest := data + ("\r\n" + tail);
    SizeSpelled(t);
    TextNotEmpty(t);
    SizeTaken(r, t.Text(), eol, rest, |data|, max);
    BeginAt(r, |data|, rest, max);
    if r.bodySize + |data| <= max {
      ChunkData(Reading(|data|, r.bodySize + |data|, r.input), data, tail, max);
    }
  }

  lemma TextNotEmpty(t: SizeText)
    requires t.Valid()
    ensures t.Text() != []
  {
    DigitsRead(t.digits);
  }

  lemma SizeTaken(r: Reading, p: string, eol: string, rest: string, n: nat, max: nat)
    requires r.ntoread == -1 && LineEnd(eol) && '\n' !in p && '\r' !in p && '\0' !in p
    requires p != [] && ChunkSize(p) == Some(n)
    ensures Read(r, p + (eol + rest), max) == Begin(r, n, rest, max)
  {
    LineTaken(p, eol, rest);
    hide ChunkSize, LineAt, FirstLf, Begin;
  }

  // A malformed size line stops the decoder.
  lemma MalformedSize(r: Reading, p: string, eol: string, rest: string, max: nat)
    requires r.ntoread == -1 && LineEnd(eol) && '\n' !in p && '\r' !in p && '\0' !in p
    requires p != [] && ChunkSize(p) == None
    ensures Read(r, p + (eol + rest), max) == Outcome(r, rest, DataCorrupted)
  {
    LineTaken(p, eol, rest);
    hide ChunkSize, LineAt, FirstLf, Begin;
  }

  // ---------- chunks that are too long ----------

  function Pow16(k: nat): nat {
    if k == 0 then 1 else 16 * Pow16(k - 1)
  }

  lemma {:induction false} PowGrows(a: nat, b: nat)
    requires a <= b
    ensures 0 < Pow16(a) <= Pow16(b)
  {
    if a < b {
      PowGrows(a, b - 1);
    } else if a > 0 {
      PowGrows(a - 1, a - 1);
    }
  }

  lemma PowSum(a: nat, b: nat)
    ensures Pow16(a) + Pow16(b) <= Pow16(a + b + 1)
  {
    PowGrows(a, a + b);
    PowGrows(b, a + b);
  }

  lemma {:induction false} HexValueBound(p: string)
    requires forall i :: 0 <= i < |p| ==> IsHex(p[i])
    ensures HexValue(p) < Pow16(|p|)
  {
    if p != [] {
      HexValueBound(p[..|p| - 1]);
    }
  }

  lemma {:induction false} SkipSpacesShortens(p: string)
    ensures |SkipSpaces(p)| <= |p|
  {
    if p != [] && IsSpace(p[0]) {
      SkipSpacesShortens(p[1..]);
    }
  }

  // A line cannot announce more than its characters can write.
  lemma SizeBound(p: string)
    ensures ChunkSize(p).Some? ==> ChunkSize(p).value < Pow16(|p|)
  {
    hide HexValue, HexSpan, SkipSpaces, SkipPrefix, Pow16, IsHex;
    var q := SkipSpaces(p);
    SkipSpacesShortens(p);
    var signed := if q != [] && (q[0] == '-' || q[0] == '+') then q[1..] else q;
    var digits := SkipPrefix(signed);
    SkipPrefixShortens(signed);
    var n := HexSpan(digits);
    HexValueBound(digits[..n]);
    PowGrows(n, |p|);
    PowGrows(0, |p|);
    StrtollBound(p);
    hide Strtoll16;
  }

  lemma SkipPrefixShortens(p: string)
    ensures |SkipPrefix(p)| <= |p|
  {
  }

  // The value is that of the digits, or smaller, or 0.
  lemma StrtollBound(p: string)
    ensures var q := SkipSpaces(p);
            var digits := SkipPrefix(if q != [] && (q[0] == '-' || q[0] == '+') then q[1..] else q);
            Strtoll16(p).0 <= HexValue(digits[..HexSpan(digits)])
  {
    hide HexValue, HexSpan, SkipSpaces, SkipPrefix, IsHex;
  }

  // What a reading that ends takes from the buffer, besides the data it collects
  function Overhead(r: Reading, buf: string, o: Outcome): int {
    |buf| - |o.buf| - (|o.reading.input| - |r.input|)
  }

  // The size lines of a body bound its length: at least two bytes are the last line, and k bytes
  // of other lines announce less than 16^k bytes.
  predicate Bounded(collected: int, overhead: int) {
    overhead >= 2 && 0 <= collected < Pow16(overhead - 2)
  }

  lemma {:induction false} SizeLinesBound(r: Reading, buf: string, max: nat)
    requires r.ntoread == -1 && Read(r, buf, max).status == AllDataRead
    ensures var o := Read(r, buf, max);
            Bounded(|o.reading.input| - |r.input|, Overhead(r, buf, o))
    decreases |buf|, 1
  {
    hide LineAt, ChunkSize, FirstLf, Bounded, Read, Begin, Pow16;
    var o, i := Read(r, buf, max), FirstLf(buf);
    SizeStep(r, buf, max);
    var p, rest := LineAt(buf, i), buf[i + 1..];
    LineLength(buf, i);
    if p == [] {
      SizeLinesBound(r, rest, max);
      MoreOverhead(|o.reading.input| - |r.input|, Overhead(r, rest, o), Overhead(r, buf, o));
    } else {
      var n := ChunkSize(p).value;
      SizeBound(p);
      BeginEnds(r, n, rest, max);
      if n == 0 {
        NoData(Overhead(r, buf, o));
      } else {
        DataBound(Reading(n, (r.bodySize + n % SIZE_T) % SIZE_T, r.input), rest, max, o, |p|);
        MoreOverhead(|o.reading.input| - |r.input|, Overhead(r, rest, o) + |p| + 1, Overhead(r, buf, o));
      }
    }
  }

  lemma {:induction false} DataBound(r: Reading, rest: string, max: nat, o: Outcome, digits: nat)
    requires r.ntoread > 0 && r.ntoread < Pow16(digits) && o == Read(r, rest, max) && o.status == AllDataRead
    ensures Bounded(|o.reading.input| - |r.input|, Overhead(r, rest, o) + digits + 1)
    decreases |rest|, 0
  {
    hide Read, Pow16;
    var n := r.ntoread;
    DataStep(r, rest, max);
    var r', left := Reading(-1, r.bodySize, r.input + rest[..n]), rest[n..];
    SizeLinesBound(r', left, max);
    MoreData(n, digits, |o.reading.input| - |r'.input|, Overhead(r', left, o));
  }

  // A line is taken off the buffer.
  lemma SizeStep(r: Reading, buf: string, max: nat)
    requires r.ntoread == -1 && Read(r, buf, max).status == AllDataRead
    ensures var i := FirstLf(buf);
            i < |buf| && var p, rest := LineAt(buf, i), buf[i + 1..];
            if p == [] then Read(r, buf, max) == Read(r, rest, max)
            else ChunkSize(p).Some? && Read(r, buf, max) == Begin(r, ChunkSize(p).value, rest, max)
  {
    hide LineAt, ChunkSize, FirstLf, Begin;
    assert Read(r, buf, max) == ReadSize(r, buf, max);
    hide Read;
  }

  lemma BeginEnds(r: Reading, n: nat, rest: string, max: nat)
    requires r.Valid() && Begin(r, n, rest, max).status == AllDataRead
    ensures var r', o := Reading(n, (r.bodySize + n % SIZE_T) % SIZE_T, r.input), Begin(r, n, rest, max);
            if n == 0 then o.buf == rest && o.reading.input == r.input else o == Read(r', rest, max)
  {
    hide Read;
  }

  // The data of a chunk is moved from the buffer.
  lemma DataStep(r: Reading, rest: string, max: nat)
    requires r.ntoread > 0 && (|rest| >= r.ntoread || Read(r, rest, max).status == AllDataRead)
    ensures |rest| >= r.ntoread
    ensures Read(r, rest, max) == Read(Reading(-1, r.bodySize, r.input + rest[..r.ntoread]), rest[r.ntoread..], max)
  {
    hide ReadSize;
  }

  lemma MoreData(n: nat, digits: nat, collected: int, overhead: int)
    requires n < Pow16(digits) && Bounded(collected, overhead)
    ensures Bounded(collected + n, overhead + digits + 1)
  {
    PowSum(digits, overhead - 2);
    hide Pow16;
  }

  lemma LineLength(buf: string, i: nat)
    requires i < |buf|
    ensures |LineAt(buf, i)| <= i
  {
    CStringShortens(buf[..if i > 0 && buf[i - 1] == '\r' then i - 1 else i]);
  }

  lemma {:induction false} CStringShortens(s: string)
    ensures |CString(s)| <= |s|
  {
    if s != [] && s[0] != '\0' {
      CStringShortens(s[1..]);
    }
  }

  lemma MoreOverhead(collected: int, overhead: int, more: int)
    requires Bounded(collected, overhead) && overhead <= more
    ensures Bounded(collected, more)
  {
    PowGrows(overhead - 2, more - 2);
    hide Pow16;
  }

  lemma NoData(overhead: int)
    requires overhead >= 2
    ensures Bounded(0, overhead)
  {
    PowGrows(0, overhead - 2);
  }

  // After the announced part of a chunk that is too long, the rest of its data would have to be
  // announced by the few bytes around it.
  lemma RestIsLost(r: Reading, data: string, trailer: string, max: nat)
    requires r.ntoread == -1 && |data| >= UNSIGNED && 0 < |data| % UNSIGNED
    ensures var m := |data| % UNSIGNED;
            var o := Read(Reading(m, r.bodySize + m, r.input), data + ("\r\n" + ("0\r\n" + trailer)), max);
            !(o.status == AllDataRead && o.buf == trailer && o.reading.input == r.input + data)
  {
    hide Read, Pow16;
    var m := |data| % UNSIGNED;
    assert m < UNSIGNED && |data| - m >= UNSIGNED;
    var rest := data + ("\r\n" + ("0\r\n" + trailer));
    var r', left := Reading(-1, r.bodySize + m, r.input + rest[..m]), rest[m..];
    var o := Read(Reading(m, r.bodySize + m, r.input), rest, max);
    DataStep(Reading(m, r.bodySize + m, r.input), rest, max);
    if o.status == AllDataRead && o.buf == trailer && |o.reading.input| == |r.input| + |data| {
      SizeLinesBound(r', left, max);
      TooLittleAnnounced(|o.reading.input| - |r'.input|, Overhead(r', left, o));
    }
  }

  // Five bytes are too few for 2^32 bytes of data.
  lemma TooLittleAnnounced(collected: int, overhead: int)
    requires Bounded(collected, overhead) && overhead == 5
    ensures collected < UNSIGNED
  {
    assert Pow16(3) == 16 * (16 * (16 * 1));
  }

  // A last chunk of any length, after what has been collected before: it is transferred if and
  // only if its size fits an unsigned int and the body is within the limit.
  lemma LastChunkExact(r: Reading, data: string, trailer: string, max: nat)
    requires r.ntoread == -1 && data != [] && r.bodySize + |data| < SIZE_T && max < SIZE_T
    ensures Read(r, PutChunk(data, "0\r\n" + trailer), max)
            == Outcome(Reading(0, r.bodySize + |data|, r.input + data), trailer, AllDataRead)
            <==> |data| < UNSIGNED && r.bodySize + |data| <= max
  {
    hide Read, PutChunk;
    if |data| < UNSIGNED {
      OneChunk(r, data, "0\r\n" + trailer, max);
      if r.bodySize + |data| <= max {
        LastChunk(Reading(-1, r.bodySize + |data|, r.input + data), trailer, max);
      }
    } else {
      LongChunkFails(r, data, trailer, max);
    }
  }

  lemma LongChunkFails(r: Reading, data: string, trailer: string, max: nat)
    requires r.ntoread == -1 && |data| >= UNSIGNED && r.bodySize + |data| < SIZE_T
    ensures Read(r, PutChunk(data, "0\r\n" + trailer), max)
            != Outcome(Reading(0, r.bodySize + |data|, r.input + data), trailer, AllDataRead)
  {
    hide Hex, Read, PutChunk;
    var m, rest := |data| % UNSIGNED, data + ("\r\n" + ("0\r\n" + trailer));
    assert 0 <= m < UNSIGNED <= |data|;
    LongChunkText(data, "0\r\n" + trailer);
    SizeLine(r, m, rest, max);
    if m == 0 {
      if Begin(r, 0, rest, max).status == AllDataRead {
        BeginEnds(r, 0, rest, max);
        hide Begin;
      }
    } else {
      BeginAt(r, m, rest, max);
      hide Begin;
      RestIsLost(r, data, trailer, max);
    }
  }

  lemma LongChunkText(data: string, tail: string)
    requires data != []
    ensures PutChunk(data, tail) == Hex(|data| % UNSIGNED) + ("\r\n" + (data + ("\r\n" + tail)))
  {
    hide Hex;
  }

  // A body whose chunks before the last are short: it is collected if and only if the last chunk
  // is short too, and the body within the limit.
  lemma LongLastChunk(chunks: seq<string>, data: string, trailer: string, max: nat)
    requires Short(chunks) && data != [] && |Joined(chunks)| + |data| < SIZE_T && max < SIZE_T
    ensures Read(Reading(-1, 0, []), PutChunks(chunks, PutChunk(data, "0\r\n" + trailer)), max)
            == Outcome(Reading(0, |Joined(chunks)| + |data|, Joined(chunks) + data), trailer, AllDataRead)
            <==> |data| < UNSIGNED && |Joined(chunks)| + |data| <= max
  {
    hide Read, PutChunk, PutChunks;
    ChunksRead(Reading(-1, 0, []), chunks, PutChunk(data, "0\r\n" + trailer), max);
    if |Joined(chunks)| <= max {
      assert [] + Joined(chunks) == Joined(chunks);
      LastChunkExact(Reading(-1, |Joined(chunks)|, Joined(chunks)), data, trailer, max);
    }
  }

  // The writer and the decoder together, for any way of cutting the bytes into arrivals
  method Transfer(chunks: seq<string>, arrivals: seq<string>, trailer: string, maxBodySize: nat)
    returns (status: Status, body: string, size: nat, left: string)
    requires Short(chunks) && |Joined(chunks)| < SIZE_T && maxBodySize < SIZE_T
    requires Joined(arrivals) == PutChunks(chunks, "0\r\n" + trailer)
    ensures status == AllDataRead <==> |Joined(chunks)| <= maxBodySize
    ensures status == AllDataRead ==> body == Joined(chunks) && size == |body| && left == trailer
  {
    hide Read, PutChunks;
    BodyRead(chunks, trailer, maxBodySize);
    var req := new EvHttpRequest(maxBodySize);
    var buf := new EvBuffer([]);
    var k;
    status, k := Receive(req, buf, arrivals);
    body, size, left := req.inputBuffer, req.bodySize, buf.data + Joined(arrivals[k..]);
  }
}
