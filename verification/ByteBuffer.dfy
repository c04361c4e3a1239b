/**
 * The growable buffer of src/buffer.c. Its bytes start somewhere inside an allocated block;
 * every operation acts on them as on a queue of bytes, however they lie in the block.
 *
 * The pointer into the block is an offset, kept beside `misalign` as in the source, and the
 * invariant says that the two agree. A block is replaced only by a fresh one, so that buffers
 * never share their memory.
 */
module ByteBuffer {
  import opened Wrappers

  // ---------- lines ----------

  predicate IsEol(c: char) {
    c == '\r' || c == '\n'
  }

  function FirstEol(data: string): (i: nat)
    ensures i <= |data| && (i < |data| ==> IsEol(data[i])) && forall k :: 0 <= k < i ==> !IsEol(data[k])
  {
    if data == [] || IsEol(data[0]) then 0 else 1 + FirstEol(data[1..])
  }

  // A line ends with CR, LF, CR LF or LF CR.
  function LineLength(data: string): (n: nat)
    requires FirstEol(data) < |data|
    ensures FirstEol(data) < n <= |data|
  {
    var i := FirstEol(data);
    if i + 1 < |data| && IsEol(data[i + 1]) && data[i + 1] != data[i] then i + 2 else i + 1
  }

  // What a C string ends at
  function CString(s: string): (t: string)
    ensures |t| <= |s| && t == s[..|t|] && (|t| < |s| ==> s[|t|] == '\0') && forall k :: 0 <= k < |t| ==> t[k] != '\0'
  {
    if s == [] || s[0] == '\0' then [] else [s[0]] + CString(s[1..])
  }

  function Max(a: nat, b: nat): nat {
    if a > b then a else b
  }

  class Buffer {
    var origBuffer: array<char>
    var buffer: nat              // the pointer `buffer`, as an offset into orig_buffer
    var misalign: nat
    var totallen: nat
    var len: nat

    // buffer_new: nothing is allocated yet
    constructor ()
      ensures Valid() && fresh(origBuffer) && Contents() == [] && totallen == 0
    {
      origBuffer := new char[0];
      buffer, misalign, totallen, len := 0, 0, 0, 0;
    }

    ghost predicate Valid()
      reads this
    {
      buffer == misalign && misalign + len <= totallen == origBuffer.Length
    }

    ghost function Contents(): string
      reads this, origBuffer
      requires Valid()
    {
      origBuffer[misalign..misalign + len]
    }

    // The block is replaced by a fresh one or kept.
    twostate predicate Owned()
      reads this
    {
      origBuffer == old(origBuffer) || fresh(origBuffer)
    }

    // buffer_align
    method Align()
      requires Valid()
      modifies this`buffer, this`misalign, origBuffer
      ensures Valid() && Contents() == old(Contents()) && misalign == 0
    {
      ghost var was := Contents();
      forall i | 0 <= i < len {
        origBuffer[i] := origBuffer[buffer + i];
      }
      assert forall i :: 0 <= i < len ==> origBuffer[i] == was[i];
      buffer := 0;
      misalign := 0;
    }

    // realloc to a longer block
    method Realloc(length: nat)
      requires Valid() && misalign == 0 && length >= totallen
      modifies this`origBuffer, this`totallen
      ensures Valid() && fresh(origBuffer) && Contents() == old(Contents()) && totallen == length
    {
      var newbuf := new char[length];
      forall i | 0 <= i < totallen {
        newbuf[i] := origBuffer[i];
      }
      assert newbuf[..len] == origBuffer[..len];
      origBuffer := newbuf;
      totallen := length;
    }

    // The space doubles until it is enough.
    method Doubled(need: nat) returns (length: nat)
      ensures length >= need && length >= totallen && length >= 256
      ensures totallen < need ==> length < Max(257, 2 * need)
    {
      length := totallen;
      if length < 256 {
        length := 256;
      }
      while length < need
        invariant length >= totallen && length >= 256
        invariant totallen < need ==> length < Max(257, 2 * need)
        decreases need - length
      {
        length := length * 2;
      }
    }

    // buffer_expand: the bytes stay, and there is room for datlen more. A new block is taken only
    // when the old one is too small even aligned, and is at most twice what is needed.
    method Expand(datlen: nat)
      requires Valid()
      modifies this, origBuffer
      ensures Valid() && Owned() && Contents() == old(Contents())
      ensures misalign + len + datlen <= totallen
      ensures totallen == old(totallen) || totallen <= Max(256, 2 * (old(misalign) + len + datlen))
      ensures old(misalign) + len + datlen <= old(totallen) || datlen <= old(misalign) ==> origBuffer == old(origBuffer)
    {
      var need := misalign + len + datlen;
      if totallen >= need {
        return;
      }
      if misalign >= datlen {
        Align();
        return;
      }
      var length := Doubled(need);
      if buffer != 0 {
        Align();
      }
      Realloc(length);
    }

    // memcpy ( buffer + len, data, datlen )
    method Store(data: string)
      requires Valid() && misalign + len + |data| <= totallen
      modifies origBuffer
      ensures Contents() == old(Contents()) && origBuffer[misalign + len..misalign + len + |data|] == data
    {
      ghost var was := Contents();
      var at := buffer + len;
      forall i | 0 <= i < |data| {
        origBuffer[at + i] := data[i];
      }
      assert forall i :: 0 <= i < len ==> origBuffer[misalign + i] == was[i];
    }

    // buffer_add: append
    method Add(data: string)
      requires Valid()
      modifies this, origBuffer
      ensures Valid() && Owned() && Contents() == old(Contents()) + data
    {
      var need := misalign + len + |data|;
      if totallen < need {
        Expand(|data|);
      }
      Store(data);
      Advance(|data|, data);
    }

    // buffer_drain: drop a prefix
    method Drain(n: nat)
      requires Valid()
      modifies this`buffer, this`misalign, this`len
      ensures Valid() && Contents() == old(Contents())[if n <= old(len) then n else old(len)..]
    {
      if n >= len {
        len := 0;
        buffer := 0;
        misalign := 0;
        return;
      }
      buffer := buffer + n;
      misalign := misalign + n;
      len := len - n;
    }

    // buffer_remove: take a prefix
    method Remove(datlen: nat) returns (data: string)
      requires Valid()
      modifies this`buffer, this`misalign, this`len
      ensures Valid() && data + Contents() == old(Contents())
      ensures |data| == if datlen <= old(len) then datlen else old(len)
    {
      var nread := datlen;
      if nread >= len {
        nread := len;
      }
      data := origBuffer[buffer..buffer + nread];
      Drain(nread);
    }

    // buffer_add_buffer: everything moves; an empty target changes places with the source.
    method AddBuffer(inbuf: Buffer)
      requires Valid() && inbuf.Valid() && inbuf != this && inbuf.origBuffer != origBuffer
      modifies this, origBuffer, inbuf
      ensures Valid() && inbuf.Valid() && origBuffer != inbuf.origBuffer
      ensures Contents() == old(Contents() + inbuf.Contents()) && inbuf.Contents() == []
    {
      if len == 0 {
        Exchange(inbuf);
        return;
      }
      ghost var moved := inbuf.Contents();
      assert inbuf.origBuffer[inbuf.buffer..inbuf.buffer + inbuf.len] == moved;
      Add(inbuf.origBuffer[inbuf.buffer..inbuf.buffer + inbuf.len]);
      inbuf.Drain(inbuf.len);
    }

    method Exchange(inbuf: Buffer)
      requires Valid() && inbuf.Valid() && inbuf != this && len == 0
      modifies this, inbuf
      ensures Valid() && inbuf.Valid() && origBuffer == old(inbuf.origBuffer) && inbuf.origBuffer == old(origBuffer)
      ensures Contents() == old(inbuf.Contents()) && inbuf.Contents() == []
    {
      origBuffer, inbuf.origBuffer := inbuf.origBuffer, origBuffer;
      buffer, inbuf.buffer := inbuf.buffer, buffer;
      misalign, inbuf.misalign := inbuf.misalign, misalign;
      totallen, inbuf.totallen := inbuf.totallen, totallen;
      len, inbuf.len := inbuf.len, len;
    }

    // vsnprintf: as much of the text as there is space for, and a NUL
    method Vsnprintf(space: nat, text: string) returns (sz: nat)
      requires Valid() && misalign + len + space == totallen
      modifies origBuffer
      ensures Contents() == old(Contents()) && sz == |text|
      ensures sz < space ==> origBuffer[misalign + len..misalign + len + sz] == text
    {
      sz := |text|;
      if space > 0 {
        var written := text[..if sz < space then sz else space - 1] + "\0";
        Store(written);
        assert sz < space ==> written[..sz] == text;
      }
    }

    // buf->len += sz
    method Advance(sz: nat, ghost text: string)
      requires Valid() && misalign + len + sz <= totallen && origBuffer[misalign + len..misalign + len + sz] == text
      modifies this`len
      ensures Valid() && Contents() == old(Contents()) + text
    {
      len := len + sz;
    }

    // buffer_add_vprintf: the text is appended in at most two passes.
    method AddVprintf(text: string) returns (sz: nat, ghost passes: nat)
      requires Valid()
      modifies this, origBuffer
      ensures Valid() && Owned() && Contents() == old(Contents()) + text && sz == |text|
      ensures 1 <= passes <= 2
    {
      passes := 0;
      Expand(64);
      while true
        invariant Valid() && Owned() && Contents() == old(Contents())
        invariant passes <= 1 && (passes == 1 ==> |text| < totallen - (misalign + len))
        decreases 2 - passes
      {
        passes := passes + 1;
        var used := misalign + len;
        var space := totallen - used;
        sz := Vsnprintf(space, text);
        if sz < space {
          Advance(sz, text);
          return;
        }
        Expand(sz + 1);
      }
    }

    // buffer_readline
    method Readline() returns (line: Option<string>)
      requires Valid()
      modifies this`buffer, this`misalign, this`len
      ensures Valid()
      ensures var data := old(Contents());
              if FirstEol(data) == |data| then line == None && Contents() == data
              else line == Some(CString(data[..FirstEol(data)])) && Contents() == data[LineLength(data)..]
    {
      hide CString, FirstEol;
      ghost var data := Contents();
      var i := 0;
      while i < len
        invariant 0 <= i <= len && forall k :: 0 <= k < i ==> !IsEol(data[k])
      {
        assert origBuffer[buffer + i] == data[i];
        if origBuffer[buffer + i] == '\r' || origBuffer[buffer + i] == '\n' {
          break;
        }
        i := i + 1;
      }
      assert FirstEol(data) == i;
      if i == len {
        return None;
      }
      line := Some(CString(origBuffer[buffer..buffer + i]));
      assert data[..i] == origBuffer[buffer..buffer + i];
      if i < len - 1 {
        var fch, sch := origBuffer[buffer + i], origBuffer[buffer + i + 1];
        assert fch == data[i] && sch == data[i + 1];
        if (sch == '\r' || sch == '\n') && sch != fch {
          i := i + 1;
        }
      }
      Drain(i + 1);
    }
  }
}
