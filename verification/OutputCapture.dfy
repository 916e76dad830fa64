/**
 What becomes of a command's output: the worker's bounded buffer
 (internal/worker/executor.go) followed by the server's truncation
 (internal/jobs/store.go).
 */
module OutputCapture {

  const MAX_OUTPUT_BYTES: nat := 32 * 1024
  const MAX_RESULT_BYTES: nat := 32 * 1024
  const MARKER: string := "\n...[truncated]"

  function TruncateOutput(s: string): string {
    if |s| <= MAX_RESULT_BYTES then s else s[..MAX_RESULT_BYTES] + MARKER
  }

  function Digit(n: nat): char
    requires n < 10
  {
    "0123456789"[n]
  }

  function Decimal(n: nat): string {
    if n < 10 then [Digit(n)] else Decimal(n / 10) + [Digit(n % 10)]
  }

  /** What a decimal numeral denotes. */
  function ValueOf(digits: string): int {
    if digits == "" then 0
    else 10 * ValueOf(digits[..|digits| - 1]) + (digits[|digits| - 1] as int - '0' as int)
  }

  /** The note's total is the number in base ten: digits only, no leading zero, the right value. */
  lemma {:induction false} DecimalDenotes(n: nat)
    ensures ValueOf(Decimal(n)) == n
    ensures Decimal(n) != "" && (n > 0 ==> Decimal(n)[0] != '0')
    ensures forall i :: 0 <= i < |Decimal(n)| ==> '0' <= Decimal(n)[i] <= '9'
  {
    if n < 10 {
      assert Decimal(n)[..0] == "";
    } else {
      DecimalDenotes(n / 10);
      var d := Decimal(n);
      assert d[..|d| - 1] == Decimal(n / 10);
    }
  }

  /** What the server keeps of a text it was sent. */
  predicate Keeps(stored: string, sent: string) {
    stored == if |sent| <= 32768 then sent else sent[..32768] + "\n...[truncated]"
  }

  /** What a buffer of the given limit reports after everything in `all` was written to it. */
  function Captured(all: string, limit: nat): string {
    if |all| <= limit then all
    else all[..limit] + "\n...[truncated, " + Decimal(|all|) + " bytes total]"
  }

  class BoundedBuffer {
    var buf: string
    var total: int
    const limit: nat
    ghost var written: string

    ghost predicate Valid()
      reads this
    {
      total == |written| && |buf| <= limit && buf <= written && (|buf| < limit ==> buf == written)
    }

    constructor (limit: nat)
      ensures Valid() && written == "" && this.limit == limit
    {
      this.limit := limit;
      buf := "";
      total := 0;
      written := "";
    }

    /** Keeps what fits, counts everything, and never reports a short write. */
    method Write(p: string) returns (n: int)
      requires Valid()
      modifies this
      ensures Valid() && written == old(written) + p && n == |p|
    {
      total := total + |p|;
      var room := limit - |buf|;
      if room > 0 {
        if room > |p| {
          room := |p|;
        }
        buf := buf + p[..room];
      }
      written := written + p;
      n := |p|;
    }

    method Text() returns (s: string)
      requires Valid()
      ensures s == Captured(written, limit)
      ensures if |written| <= limit then s == written
              else s == written[..limit] + "\n...[truncated, " + Decimal(|written|) + " bytes total]"
    {
      if total > |buf| {
        s := buf + ("\n...[truncated, " + Decimal(total) + " bytes total]");
        assert buf == written[..limit];
        assert s == buf + "\n...[truncated, " + Decimal(total) + " bytes total]";
      } else {
        s := buf;
      }
    }
  }

  function Joined(chunks: seq<string>): string {
    if chunks == [] then "" else Joined(chunks[..|chunks| - 1]) + chunks[|chunks| - 1]
  }

  /** However the command's writes are cut into chunks, the worker sends the output, or its first 32768
      bytes and a note of the total; and the stored text is the output, or its first 32768 bytes and
      the server's marker: the worker's own never survives. */
  method CaptureAndStore(chunks: seq<string>) returns (sent: string, stored: string)
    ensures if |Joined(chunks)| <= 32768 then sent == Joined(chunks)
            else sent == Joined(chunks)[..32768] + "\n...[truncated, " + Decimal(|Joined(chunks)|) + " bytes total]"
    ensures |Joined(chunks)| <= 32768 ==> stored == Joined(chunks)
    ensures |Joined(chunks)| > 32768 ==> stored == Joined(chunks)[..32768] + "\n...[truncated]"
  {
    var b := new BoundedBuffer(MAX_OUTPUT_BYTES);
    for i := 0 to |chunks|
      invariant b.Valid() && b.limit == MAX_OUTPUT_BYTES
      invariant b.written == Joined(chunks[..i])
    {
      var _ := b.Write(chunks[i]);
      assert chunks[..i + 1][..i] == chunks[..i];
    }
    assert chunks[..|chunks|] == chunks;
    sent := b.Text();
    stored := TruncateOutput(sent);
    TruncateCaptured(b.written);
  }

  /** The server's truncation of a capture is its truncation of the whole output. */
  lemma TruncateCaptured(all: string)
    ensures TruncateOutput(Captured(all, MAX_OUTPUT_BYTES)) == TruncateOutput(all)
  {
    if |all| > MAX_OUTPUT_BYTES {
      var head := all[..MAX_OUTPUT_BYTES];
      var tail := "\n...[truncated, " + Decimal(|all|) + " bytes total]";
      assert Captured(all, MAX_OUTPUT_BYTES) == head + tail;
      assert (head + tail)[..MAX_RESULT_BYTES] == head;
    }
  }

  /** A stored text that passes through the server again is left as it is. */
  lemma TruncateIdempotent(s: string)
    ensures TruncateOutput(TruncateOutput(s)) == TruncateOutput(s)
    ensures Keeps(TruncateOutput(s), s) && |TruncateOutput(s)| <= 32783
  {
    if |s| > MAX_RESULT_BYTES {
      var head := s[..MAX_RESULT_BYTES];
      assert (head + MARKER)[..MAX_RESULT_BYTES] == head;
    }
  }
}
