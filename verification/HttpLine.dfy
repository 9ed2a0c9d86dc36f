/**
 The resumable line scanner of the HTTP connection as a function of the bytes read so far and
 the index it has reached, exactly as published.  The write one place before the buffer, for
 a line end at index 0, is the outcome Underflow.
 */
module HttpLine {

  const CR := '\r'
  const LF := '\n'
  const NUL := '\0'

  datatype Status = LineOk | LineBad | LineOpen | Underflow

  datatype Scan = Scan(status: Status, buf: string, checked: nat)

  function ParseLine(b: string, k: nat): (r: Scan)
    requires k <= |b|
    ensures k <= r.checked <= |b| == |r.buf|
    ensures r.status != LineOk ==> r.buf == b
    decreases |b| - k
  {
    if k == |b| then Scan(LineOpen, b, k)
    else if b[k] == CR then
      if k + 1 == |b| then Scan(LineOpen, b, k)
      else if b[k + 1] != LF then Scan(LineBad, b, k)
      else if k == 0 then Scan(Underflow, b, k)
      else Scan(LineOk, b[k - 1 := NUL][k := NUL], k + 1)
    else if b[k] == LF then
      if k > 1 && b[k - 1] == CR then Scan(LineOk, b[k - 1 := NUL][k := NUL], k + 1)
      else Scan(LineBad, b, k)
    else ParseLine(b, k + 1)
  }

  /** The first carriage return or line feed at or after `k`, or the end. */
  function Stop(b: string, k: nat): (p: nat)
    requires k <= |b|
    ensures k <= p <= |b|
    ensures forall i :: k <= i < p ==> b[i] != CR && b[i] != LF
    ensures p < |b| ==> b[p] == CR || b[p] == LF
    decreases |b| - k
  {
    if k == |b| || b[k] == CR || b[k] == LF then k else Stop(b, k + 1)
  }

  /** The outcome is decided at the first line-end byte. */
  lemma {:induction false} DecidedAtStop(b: string, k: nat)
    requires k <= |b|
    ensures ParseLine(b, k) == ParseLine(b, Stop(b, k))
    decreases |b| - k
  {
    if k < |b| && b[k] != CR && b[k] != LF { DecidedAtStop(b, k + 1); }
  }

  /** Every outcome, in terms of the first line-end byte p: a line is reported if and only if a CR there,
      not at index 0, has LF behind it, or the scan starts on an LF, behind index 1, with CR before it;
      the scan stays open if and only if no line-end byte is left but perhaps a CR as the very last byte.
      A reported line ends in two NULs, at p-1 and p, and the index moves to p+1. */
  lemma ScanOutcome(b: string, k: nat)
    requires k <= |b|
    ensures var p, r := Stop(b, k), ParseLine(b, k);
      && (r.status == LineOk <==>
            || (0 < p && p + 1 < |b| && b[p] == CR && b[p + 1] == LF)
            || (p == k && 1 < k < |b| && b[k] == LF && b[k - 1] == CR))
      && (r.status == LineOpen <==> p == |b| || (b[p] == CR && p + 1 == |b|))
      && (r.status == Underflow <==> p == 0 && 1 < |b| && b[0] == CR && b[1] == LF)
      && (r.status == LineOk ==> r.checked == p + 1 && r.buf == b[p - 1 := NUL][p := NUL])
      && (r.status != LineOk ==> r.checked == p && r.buf == b)
  {
    DecidedAtStop(b, k);
  }

  // ---------- independence of chunking ----------

  lemma {:induction false} OpenResumes(b: string, more: string, k: nat)
    requires k <= |b| && ParseLine(b, k).status == LineOpen
    ensures ParseLine(b + more, k) == ParseLine(b + more, ParseLine(b, k).checked)
    decreases |b| - k
  {
    if k < |b| && b[k] != CR { OpenResumes(b, more, k + 1); }
  }

  lemma {:induction false} DecidedStays(b: string, more: string, k: nat)
    requires k <= |b| && ParseLine(b, k).status != LineOpen
    ensures var r := ParseLine(b, k); ParseLine(b + more, k) == Scan(r.status, r.buf + more, r.checked)
    decreases |b| - k
  {
    if b[k] == CR || b[k] == LF {
      if k > 0 { assert (b + more)[k - 1 := NUL][k := NUL] == b[k - 1 := NUL][k := NUL] + more; }
    } else {
      DecidedStays(b, more, k + 1);
    }
  }

  function Join(chunks: seq<string>): string {
    if chunks == [] then "" else chunks[0] + Join(chunks[1..])
  }

  /** Scan; while the line is open and chunks keep arriving, append the next and scan again from where
      the last scan stopped.  Also returns the chunks that were not needed. */
  function Feed(b: string, k: nat, chunks: seq<string>): (r: (Scan, seq<string>))
    requires k <= |b|
    decreases |chunks|
  {
    var s := ParseLine(b, k);
    if s.status == LineOpen && chunks != [] then Feed(s.buf + chunks[0], s.checked, chunks[1..])
    else (s, chunks)
  }

  /** However the input is cut into chunks, scanning as they arrive ends with the status, index
      and bytes of one scan over the whole input. */
  lemma {:induction false} ChunkingIsInvisible(b: string, k: nat, chunks: seq<string>)
    requires k <= |b|
    ensures var (s, rest) := Feed(b, k, chunks);
      ParseLine(b + Join(chunks), k) == Scan(s.status, s.buf + Join(rest), s.checked)
    decreases |chunks|
  {
    var s := ParseLine(b, k);
    if s.status != LineOpen {
      DecidedStays(b, Join(chunks), k);
    } else if chunks == [] {
      assert b + Join(chunks) == b;
    } else {
      OpenResumes(b, Join(chunks), k);
      ChunkingIsInvisible(b + chunks[0], s.checked, chunks[1..]);
      assert (b + chunks[0]) + Join(chunks[1..]) == b + Join(chunks);
    }
  }

  // ---------- what a reported line leaves behind ----------

  /** The text a C string reader sees. */
  function CString(s: string): string {
    if s == "" || s[0] == NUL then "" else [s[0]] + CString(s[1..])
  }

  lemma {:induction false} CStringCut(a: string, b: string)
    requires NUL !in a && b != "" && b[0] == NUL
    ensures CString(a + b) == a
  {
    if a == "" {
      assert a + b == b;
    } else {
      assert (a + b)[1..] == a[1..] + b;
      CStringCut(a[1..], b);
    }
  }

  lemma {:induction false} CStringPrefix(a: string, b: string)
    requires NUL in a
    ensures CString(a + b) == CString(a)
  {
    if a[0] != NUL {
      assert (a + b)[1..] == a[1..] + b;
      CStringPrefix(a[1..], b);
    }
  }

  lemma {:induction false} CStringWhole(a: string)
    requires NUL !in a
    ensures CString(a) == a
  {
    if a != "" { CStringWhole(a[1..]); }
  }

  /** The terminators land on the last byte of the line and on the CR, so the text handed on is
      the line without its last byte; it is the line itself if and only if the line contains a NUL. */
  lemma LineLosesLastByte(b: string)
    requires ParseLine(b, 0).status == LineOk
    ensures var line, text := b[..Stop(b, 0)], CString(ParseLine(b, 0).buf);
      && (NUL !in line ==> text == line[..|line| - 1])
      && (text == CString(line) <==> NUL in line)
  {
    ScanOutcome(b, 0);
    var p, buf := Stop(b, 0), ParseLine(b, 0).buf;
    var line := b[..p];
    assert buf == b[..p - 1] + ([NUL, NUL] + b[p + 1..]);
    assert line == b[..p - 1] + [b[p - 1]];
    if NUL !in line {
      CStringCut(b[..p - 1], [NUL, NUL] + b[p + 1..]);
      CStringWhole(line);
    } else if NUL in b[..p - 1] {
      CStringPrefix(b[..p - 1], [NUL, NUL] + b[p + 1..]);
      CStringPrefix(b[..p - 1], [b[p - 1]]);
    } else {
      CStringCut(b[..p - 1], [NUL, NUL] + b[p + 1..]);
      CStringCut(b[..p - 1], [b[p - 1]]);
    }
  }

  /** The next scan starts behind the line exactly when this one started on the LF of a CR LF
      pair; otherwise it starts on the LF with the CR before it gone, and reports a bad line. */
  lemma NextScan(b: string, k: nat, more: string)
    requires k <= |b| && ParseLine(b, k).status == LineOk
    ensures Stop(b, k) < |b|
    ensures var r, p := ParseLine(b, k), Stop(b, k);
      if b[p] == CR then r.checked < |b| && r.buf[r.checked] == LF &&
        ParseLine(r.buf + more, r.checked).status == LineBad
      else p == k && b[k] == LF && r.checked == k + 1
  {
    DecidedAtStop(b, k);
  }

  /** So the second line of every connection is refused, whatever it is. */
  lemma SecondLineIsBad(b: string, more: string)
    requires ParseLine(b, 0).status == LineOk
    ensures var r := ParseLine(b, 0); ParseLine(r.buf + more, r.checked).status == LineBad
  {
    NextScan(b, 0, more);
  }
}
