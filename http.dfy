/** Bytes, prefix matching and the fixed literals shared by the two copies
    of the canned-response logic (src/webserver.rs and src/handler.rs),
    together with two reference parsers used to state what those functions
    mean: the request line in front of the first CRLF (section 3 of
    RFC 9112) and the split of a response at the first empty line
    (section 4 of RFC 9112). */
module Http {
  import opened Wrappers

  newtype byte = x: int | 0 <= x < 256

  /** Every connection is read into a zero-initialised buffer of this size. */
  const BufferSize: nat := 512

  type Buffer = b: seq<byte> | |b| == BufferSize witness seq(BufferSize, _ => 0 as byte)

  /** The bytes of a string literal such as b"GET / HTTP/1.1\r\n"; every
      literal used here is ASCII, so no character is reduced. */
  function Ascii(s: string): seq<byte>
  {
    seq(|s|, i requires 0 <= i < |s| => (s[i] as int % 256) as byte)
  }

  /** `s.starts_with(prefix)` on a slice. */
  predicate StartsWith<T(==)>(s: seq<T>, prefix: seq<T>)
  {
    |prefix| <= |s| && s[..|prefix|] == prefix
  }

  /** `pat` occurs in `s` starting at index `j`. */
  predicate OccursAt<T(==)>(s: seq<T>, pat: seq<T>, j: nat)
  {
    j + |pat| <= |s| && s[j..j + |pat|] == pat
  }

  lemma OccursAtTail<T>(s: seq<T>, pat: seq<T>, k: nat)
    requires |s| > 0
    ensures OccursAt(s[1..], pat, k) <==> OccursAt(s, pat, k + 1)
  {
  }

  /** The index of the first occurrence of `pat` in `s`, if any. */
  function IndexOf<T(==)>(s: seq<T>, pat: seq<T>): (r: Option<nat>)
    ensures r.Some? ==> OccursAt(s, pat, r.value)
    ensures r.Some? ==> forall j: nat :: j < r.value ==> !OccursAt(s, pat, j)
    ensures r.None? ==> forall j: nat :: !OccursAt(s, pat, j)
    decreases |s|
  {
    if |s| < |pat| then None
    else if s[..|pat|] == pat then Some(0)
    else
      match IndexOf(s[1..], pat)
      case None =>
        assert forall j: nat :: !OccursAt(s, pat, j) by {
          forall j: nat ensures !OccursAt(s, pat, j) {
            if j > 0 { OccursAtTail(s, pat, j - 1); }
          }
        }
        None
      case Some(k) =>
        OccursAtTail(s, pat, k);
        assert forall j: nat :: j < k + 1 ==> !OccursAt(s, pat, j) by {
          forall j: nat | j < k + 1 ensures !OccursAt(s, pat, j) {
            if j > 0 { OccursAtTail(s, pat, j - 1); }
          }
        }
        Some(k + 1)
  }

  /** A search finds an occurrence exactly when it is the first one. */
  lemma IndexOfFirst<T>(s: seq<T>, pat: seq<T>, k: nat)
    ensures IndexOf(s, pat) == Some(k) <==>
            OccursAt(s, pat, k) && forall j: nat :: j < k ==> !OccursAt(s, pat, j)
  {
  }

  /** When no element in front of `k` equals the first element of `pat`,
      an occurrence at `k` is the first one. */
  lemma FirstOccurrence<T>(s: seq<T>, pat: seq<T>, k: nat)
    requires |pat| > 0 && OccursAt(s, pat, k)
    requires forall j :: 0 <= j < k ==> s[j] != pat[0]
    ensures IndexOf(s, pat) == Some(k)
  {
    forall j: nat | j < k ensures !OccursAt(s, pat, j) {
      if j + |pat| <= |s| {
        assert s[j..j + |pat|][0] == s[j];
      }
    }
    IndexOfFirst(s, pat, k);
  }

  // The canned statuses and file names.
  const Ok: string := "200 OK"
  const NotFound: string := "404 NOT FOUND"
  const HelloPage: string := "hello.html"
  const NotFoundPage: string := "404.html"

  const Crlf: seq<byte> := Ascii("\r\n")
  /** The two request lines the server answers, without and with their CRLF. */
  const RootLine: seq<byte> := Ascii("GET / HTTP/1.1")
  const SleepLine: seq<byte> := Ascii("GET /sleep HTTP/1.1")
  const RootRequestLine: seq<byte> := Ascii("GET / HTTP/1.1\r\n")
  const SleepRequestLine: seq<byte> := Ascii("GET /sleep HTTP/1.1\r\n")

  /** The request line of a buffer: the bytes in front of its first CRLF,
      or None when the buffer holds no CRLF. */
  function RequestLine(b: seq<byte>): (r: Option<seq<byte>>)
    ensures r.Some? ==> StartsWith(b, r.value + Crlf)
    ensures r.Some? ==> forall j: nat :: j < |r.value| ==> !OccursAt(b, Crlf, j)
  {
    match IndexOf(b, Crlf)
    case None => None
    case Some(k) =>
      assert b[..k + 2] == b[..k] + b[k..k + 2];
      Some(b[..k])
  }

  /** A buffer starts with `line` followed by CRLF exactly when `line` is
      its request line, provided `line` holds no carriage return. */
  lemma StartsWithRequestLine(b: seq<byte>, line: seq<byte>)
    requires forall i :: 0 <= i < |line| ==> line[i] != 13
    ensures StartsWith(b, line + Crlf) <==> RequestLine(b) == Some(line)
  {
    if StartsWith(b, line + Crlf) {
      var k := |line|;
      assert b[..k + 2] == line + Crlf;
      assert b[k..k + 2] == (line + Crlf)[k..k + 2];
      assert Crlf[0] == 13;
      forall j | 0 <= j < k ensures b[j] != Crlf[0] {
        assert b[j] == (line + Crlf)[j];
      }
      FirstOccurrence(b, Crlf, k);
      assert b[..k] == (line + Crlf)[..k];
    }
  }

  lemma RootRequestLineSplit()
    ensures RootRequestLine == RootLine + Crlf
    ensures forall i :: 0 <= i < |RootLine| ==> RootLine[i] != 13
  {
  }

  lemma SleepRequestLineSplit()
    ensures SleepRequestLine == SleepLine + Crlf
    ensures forall i :: 0 <= i < |SleepLine| ==> SleepLine[i] != 13
  {
  }

  /** The two request lines the server recognises differ at byte 5
      (' ' against 's'), so no buffer starts with both. */
  lemma RequestLinesExclusive(b: seq<byte>)
    ensures !(StartsWith(b, RootRequestLine) && StartsWith(b, SleepRequestLine))
  {
    if StartsWith(b, RootRequestLine) {
      assert b[5] == b[..|RootRequestLine|][5] == RootRequestLine[5];
      assert RootRequestLine[5] as int == 32 && SleepRequestLine[5] as int == 115;
      if |SleepRequestLine| <= |b| {
        assert b[..|SleepRequestLine|][5] == b[5];
      }
    }
  }

  const StatusPrefix: string := "HTTP/1.1 "
  const EmptyLine: string := "\r\n\r\n"

  /** How a client reads a response of this server: the part in front of
      the first CRLF CRLF must be "HTTP/1.1 " followed by the status; the
      rest is the body. */
  function ParseResponse(response: string): (r: Option<(string, string)>)
  {
    match IndexOf(response, EmptyLine)
    case None => None
    case Some(k) =>
      var head := response[..k];
      if StartsWith(head, StatusPrefix) then Some((head[|StatusPrefix|..], response[k + |EmptyLine|..]))
      else None
  }
}
