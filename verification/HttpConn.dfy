/**
 The read and write buffers of an HTTP connection, updated in place, against the functions
 of `HttpLine` and `HttpResponse`.
 */
module HttpConn {
  import opened HttpLine
  import opened HttpResponse

  const READ_BUFFER_SIZE := 2048

  /** Why the stream of received bytes stops for now. */
  datatype End = WouldBlock | Failed | EndOfStream

  class Connection {
    const readBuf: array<char>
    var readIdx: nat
    var checkedIdx: nat

    const writeBuf: array<char>
    var writeIdx: nat
    var linger: bool
    var fileSize: nat
    var contentLength: int
    var inContent: bool  // m_check_state is CHECK_STATE_CONTENT

    // m_iv: how many bytes of the write buffer are to be sent, and whether the file follows
    var ivHead: nat
    var ivCount: nat

    ghost predicate Valid()
      reads this
    {
      && readBuf.Length == READ_BUFFER_SIZE && checkedIdx <= readIdx <= READ_BUFFER_SIZE
      && writeBuf.Length == WRITE_BUFFER_SIZE && writeIdx <= WRITE_BUFFER_SIZE - 2
      && readBuf != writeBuf
    }

    /** The bytes received so far, as the scanner has left them. */
    ghost function Input(): string
      requires Valid()
      reads this, readBuf
    {
      readBuf[..readIdx]
    }

    /** The bytes committed for sending. */
    ghost function Output(): string
      requires Valid()
      reads this, writeBuf
    {
      writeBuf[..writeIdx]
    }

    /** What the header lines so far have set. */
    ghost function HeaderState(): Parser
      reads this
    {
      Parser(contentLength, linger, inContent)
    }

    constructor ()
      ensures Valid() && Input() == "" && checkedIdx == 0 && Output() == ""
      ensures HeaderState() == Parser(0, false, false)
      ensures fresh(readBuf) && fresh(writeBuf)
    {
      readBuf := new char[READ_BUFFER_SIZE](i => '\0');
      writeBuf := new char[WRITE_BUFFER_SIZE](i => '\0');
      readIdx, checkedIdx, writeIdx := 0, 0, 0;
      linger, fileSize, ivHead, ivCount := false, 0, 0, 0;
      contentLength, inContent := 0, false;
    }

    // ---------- reading ----------

    /** parse_line.  On Underflow the published code writes in front of the buffer; here it stops. */
    method ParseLine() returns (status: Status)
      requires Valid()
      modifies this`checkedIdx, readBuf
      ensures Valid() && Scan(status, Input(), checkedIdx) == HttpLine.ParseLine(old(Input()), old(checkedIdx))
    {
      ghost var b, k := Input(), checkedIdx;
      while checkedIdx < readIdx
        invariant k <= checkedIdx <= readIdx && Input() == b
        invariant HttpLine.ParseLine(b, k) == HttpLine.ParseLine(b, checkedIdx)
      {
        var temp := readBuf[checkedIdx];
        assert b[checkedIdx] == temp;
        if temp == '\r' {
          if checkedIdx + 1 == readIdx {
            return LineOpen;
          } else if readBuf[checkedIdx + 1] == '\n' {
            if checkedIdx == 0 {
              return Underflow;
            }
            EndLine();
            return LineOk;
          }
          return LineBad;
        } else if temp == '\n' {
          if checkedIdx > 1 && readBuf[checkedIdx - 1] == '\r' {
            EndLine();
            return LineOk;
          }
          return LineBad;
        }
        checkedIdx := checkedIdx + 1;
      }
      return LineOpen;
    }

    method EndLine()
      requires Valid() && 0 < checkedIdx < readIdx
      modifies this`checkedIdx, readBuf
      ensures Valid() && checkedIdx == old(checkedIdx) + 1
      ensures Input() == old(Input()[checkedIdx - 1 := NUL][checkedIdx := NUL])
    {
      readBuf[checkedIdx - 1] := '\0';
      readBuf[checkedIdx] := '\0';
      checkedIdx := checkedIdx + 1;
    }

    /** read: the kernel hands over `data` in pieces of its own choosing, then reports `end`.  A full buffer
        asks for zero bytes, gets zero, and takes that for the end of the stream. */
    method Read(data: string, end: End) returns (ok: bool)
      requires Valid()
      modifies this`readIdx, readBuf
      ensures Valid()
      ensures var room := 2048 - old(readIdx);
        && Input() == old(Input()) + data[..if |data| <= room then |data| else room]
        && (ok <==> |data| < room && end == WouldBlock)
    {
      if readIdx >= READ_BUFFER_SIZE {
        return false;
      }
      ghost var before := Input();
      var i := 0;
      while true
        invariant i <= |data| && readIdx == old(readIdx) + i <= READ_BUFFER_SIZE
        invariant Valid() && Input() == before + data[..i]
        decreases |data| - i
      {
        var room := READ_BUFFER_SIZE - readIdx;
        if room == 0 {
          return false;
        }
        if i == |data| {
          return end == WouldBlock;
        }
        var n: nat :| 1 <= n <= room && n <= |data| - i;
        Receive(data[i..i + n]);
        assert data[..i] + data[i..i + n] == data[..i + n];
        i := i + n;
      }
    }

    /** recv stores a piece behind what is there. */
    method Receive(piece: string)
      requires Valid() && readIdx + |piece| <= READ_BUFFER_SIZE
      modifies this`readIdx, readBuf
      ensures Valid() && readIdx == old(readIdx) + |piece| && Input() == old(Input()) + piece
    {
      forall j | 0 <= j < |piece| {
        readBuf[readIdx + j] := piece[j];
      }
      readIdx := readIdx + |piece|;
    }

    /** parse_headers on one line, up to the Host header. */
    method ParseHeaders(text: string) returns (code: Code)
      modifies this`contentLength, this`linger, this`inContent
      ensures (HeaderState(), code) == ParseHeader(old(HeaderState()), text)
    {
      if text == "" {
        if contentLength != 0 {
          inContent := true;
          return NoRequest;
        }
        return GetRequest;
      } else if StartsWith(text, "Connection:") {
        var v := Skip(text[11..], "\t");
        if |v| == 10 && StartsWith(v, "keep-alive") {
          linger := true;
        }
      } else if StartsWith(text, "Content-Length:") {
        contentLength := ToInt(Atol(Skip(text[15..], " \t")));
      }
      return NoRequest;
    }

    // ---------- writing ----------

    /** add_response: vsnprintf writes what fits behind the committed bytes; only a whole text is committed. */
    method AddResponse(text: string) returns (ok: bool)
      requires Valid()
      modifies this`writeIdx, writeBuf
      ensures Valid() && (Output(), ok) == HttpResponse.AddResponse(old(Output()), text)
      ensures ok <==> |old(Output())| + |text| <= 1022
      ensures Output() == if ok then old(Output()) + text else old(Output())
    {
      if writeIdx >= WRITE_BUFFER_SIZE {
        return false;
      }
      var size := WRITE_BUFFER_SIZE - 1 - writeIdx;
      var kept := if |text| < size then |text| else size - 1;
      forall j | 0 <= j <= kept {
        writeBuf[writeIdx + j] := if j < kept then text[j] else '\0';
      }
      assert writeBuf[..writeIdx] == old(Output());
      if |text| >= size {
        return false;
      }
      writeIdx := writeIdx + |text|;
      assert Output() == old(Output()) + text;
      return true;
    }

    method AddHeaders(contentLength: int) returns (ok: bool)
      requires Valid()
      modifies this`writeIdx, writeBuf
      ensures Valid() && (Output(), ok) == HttpResponse.AddHeaders(old(Output()), contentLength, linger)
    {
      ok := AddResponse(LengthLine(contentLength));
      if ok {
        ok := AddResponse(LingerLine(linger));
      }
      if ok {
        ok := AddResponse("\r\n");
      }
    }

    method AddPage(status: int, title: string, body: string) returns (ok: bool)
      requires Valid()
      modifies this`writeIdx, writeBuf
      ensures Valid() && (Output(), ok) == Page(old(Output()), status, title, body, linger)
    {
      var r1 := AddResponse(StatusLine(status, title));
      var r2 := AddHeaders(|body|);
      ok := AddResponse(body);
    }

    /** The part of a file reply that goes through the buffer. */
    method AddFileHead()
      requires Valid() && fileSize != 0
      modifies this`writeIdx, writeBuf
      ensures Valid() && (Output(), true) == HttpResponse.ProcessWrite(FileRequest, old(Output()), linger, fileSize)
    {
      var r1 := AddResponse(StatusLine(200, OK_200_TITLE));
      var r2 := AddHeaders(ToInt(fileSize));
    }

    method ProcessWrite(code: Code) returns (ok: bool)
      requires Valid()
      modifies this`writeIdx, writeBuf, this`ivHead, this`ivCount
      ensures Valid() && (Output(), ok) == HttpResponse.ProcessWrite(code, old(Output()), linger, fileSize)
      ensures ok ==> ivHead == writeIdx && ivCount == if code == FileRequest then 2 else 1
      ensures !ok ==> ivHead == old(ivHead) && ivCount == old(ivCount)
    {
      match code {
        case InternalError => ok := AddPage(500, ERROR_500_TITLE, ERROR_500_FORM);
        case BadRequest => ok := AddPage(400, ERROR_400_TITLE, ERROR_400_FORM);
        case NoResource => ok := AddPage(404, ERROR_404_TITLE, ERROR_404_FORM);
        case ForbiddenRequest => ok := AddPage(403, ERROR_403_TITLE, ERROR_403_FORM);
        case FileRequest =>
          if fileSize != 0 {
            AddFileHead();
            ivHead, ivCount := writeIdx, 2;
            return true;
          }
          var r := AddPage(200, OK_200_TITLE, OK_STRING);
          return false;
        case _ => return false;
      }
      if ok {
        ivHead, ivCount := writeIdx, 1;
      }
    }
  }
}
