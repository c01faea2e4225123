/** FASTQ input as the synchroniser sees it: files are sequences of lines,
    `readline` yields "" once a file is exhausted, every line of a record is
    passed through `str.strip()`, and the mate identifier is the text before
    the first space (`split(' ')[0]`). */
module Fastq {

  function Min(x: int, y: int): int
  {
    if x <= y then x else y
  }

  // ---------------------------------------------------------------------------
  // str.strip() and str.split(' ')[0]
  // ---------------------------------------------------------------------------

  /** Python's `str.isspace`: the characters that `str.strip()` removes. */
  predicate IsSpace(c: char)
  {
    ('\t' <= c <= '\r') || ('\U{1C}' <= c <= ' ') || c == '\U{85}' || c == '\U{A0}'
    || c == '\U{1680}' || ('\U{2000}' <= c <= '\U{200A}') || c == '\U{2028}' || c == '\U{2029}'
    || c == '\U{202F}' || c == '\U{205F}' || c == '\U{3000}'
  }

  predicate AllSpace(s: string)
  {
    forall k | 0 <= k < |s| :: IsSpace(s[k])
  }

  /** `s.lstrip()`: `s` without its leading whitespace. */
  function LStrip(s: string): string
    decreases |s|
  {
    if s != [] && IsSpace(s[0]) then LStrip(s[1..]) else s
  }

  /** `s.rstrip()`: `s` without its trailing whitespace. */
  function RStrip(s: string): string
    decreases |s|
  {
    if s != [] && IsSpace(s[|s| - 1]) then RStrip(s[..|s| - 1]) else s
  }

  /** `s.strip()`. */
  function Strip(s: string): string
  {
    RStrip(LStrip(s))
  }

  /** `s.split(' ')[0]`: everything before the first space character, or all
      of `s` when it has none. Only U+0020 separates; tabs do not. */
  function FirstField(s: string): string
  {
    if s == [] || s[0] == ' ' then [] else [s[0]] + FirstField(s[1..])
  }

  /** The identifier of a header line: `line.strip().split(' ')[0]`. */
  function Identifier(line: string): string
  {
    FirstField(Strip(line))
  }

  // ---------------------------------------------------------------------------
  // Records and reading
  // ---------------------------------------------------------------------------

  /** A FASTQ record: the four stripped lines `next_record` returns. */
  datatype Record = Record(header: string, bases: string, separator: string, quality: string)

  /** What `next_record` returns on an exhausted file. */
  const EMPTY_RECORD: Record := Record("", "", "", "")

  /** `head(record)`: the identifier of a record, read off its (already stripped) header. */
  function Head(r: Record): string
  {
    FirstField(r.header)
  }

  /** Number of records in a file of `n` lines; a trailing partial record counts. */
  function NumRecords(lines: seq<string>): nat
  {
    (|lines| + 3) / 4
  }

  /** Line `j` of a file as `readline` returns it: "" past the end. */
  function RawLine(lines: seq<string>, j: nat): string
  {
    if j < |lines| then lines[j] else ""
  }

  /** Line `j` of a file as `next_record` keeps it: `readline().strip()`. */
  function LineAt(lines: seq<string>, j: nat): string
  {
    Strip(RawLine(lines, j))
  }

  /** The record made of the four lines from line `j` on, "" past the end. */
  function RecordFrom(lines: seq<string>, j: nat): Record
  {
    Record(LineAt(lines, j), LineAt(lines, j + 1), LineAt(lines, j + 2), LineAt(lines, j + 3))
  }

  /** The `k`-th record of a file (lines 4k .. 4k+3), padded with "" past the end. */
  function RecordAt(lines: seq<string>, k: nat): Record
  {
    RecordFrom(lines, 4 * k)
  }

  /** The records of a file, one per started group of four lines. */
  function Records(lines: seq<string>): seq<Record>
  {
    seq(NumRecords(lines), k requires 0 <= k => RecordAt(lines, k))
  }

  /** The record a cursor on record number `k` holds: `EMPTY_RECORD` once the
      records are exhausted. */
  function Pending(recs: seq<Record>, k: nat): Record
  {
    if k < |recs| then recs[k] else EMPTY_RECORD
  }

  /** `next_record(fh)`: four `readline().strip()` calls from read position
      `pos`; `readline` returns "" at end of file and leaves the position
      there. Called where record `k` starts (or at end of file, once `k` is past
      the last record), it reads record `k` of `recs`, the records of the file,
      and leaves the position where record `k + 1` starts. */
  method NextRecord(lines: seq<string>, pos: nat, ghost recs: seq<Record>, ghost k: nat) returns (rec: Record, next: nat)
    requires ReadsAs(lines, recs) && pos == Min(4 * k, |lines|)
    ensures rec == Pending(recs, k)
    ensures next == Min(4 * (k + 1), |lines|)
  {
    var (line0, p1) := ReadLine(lines, pos);
    var (line1, p2) := ReadLine(lines, p1);
    var (line2, p3) := ReadLine(lines, p2);
    var (line3, p4) := ReadLine(lines, p3);
    rec := Record(Strip(line0), Strip(line1), Strip(line2), Strip(line3));
    next := p4;
    assert rec == RecordFrom(lines, pos);
    ReadAtRecordStart(lines, k);
  }

  /** `fh.readline()` at read position `pos`: the line there and the position
      after it, or "" and the same position at end of file. */
  function ReadLine(lines: seq<string>, pos: nat): (r: (string, nat))
    requires pos <= |lines|
    ensures r.0 == RawLine(lines, pos) && r.1 == Min(pos + 1, |lines|)
  {
    if pos < |lines| then (lines[pos], pos + 1) else ("", pos)
  }

  /** Reading from the line where record `k` starts, or from the end of the
      file once `k` is past the last record, yields record `k`. */
  lemma ReadAtRecordStart(lines: seq<string>, k: nat)
    ensures RecordFrom(lines, Min(4 * k, |lines|)) == RecordAt(lines, k)
  {
    var pos := Min(4 * k, |lines|);
    if pos < 4 * k {
      // past the end of the file every line reads as ""
      assert RawLine(lines, pos + 1) == RawLine(lines, 4 * k + 1) == "";
      assert RawLine(lines, pos + 2) == RawLine(lines, 4 * k + 2) == "";
      assert RawLine(lines, pos + 3) == RawLine(lines, 4 * k + 3) == "";
    }
  }

  /** `recs` are the records `next_record` reads from `lines`: one per started
      group of four lines, record `k` being the one read from line `4 * k`, and
      the padding record from past the end. */
  ghost predicate ReadsAs(lines: seq<string>, recs: seq<Record>)
  {
    |recs| == NumRecords(lines)
    && forall k: nat {:trigger RecordAt(lines, k)} :: RecordAt(lines, k) == Pending(recs, k)
  }

  /** The `headers` generator: the identifier of every line whose index is a
      multiple of 4 (lines 0, 4, 8, ...) of the original file, in order. */
  function Headers(original: seq<string>): (hs: seq<string>)
    ensures |hs| == NumRecords(original)
    decreases |original|
  {
    if original == [] then []
    else [Identifier(original[0])] + Headers(original[Min(4, |original|)..])
  }

  // ---------------------------------------------------------------------------
  // Lemmas
  // ---------------------------------------------------------------------------

  /** `lstrip` removes a whitespace prefix and leaves a suffix that starts
      with a non-whitespace character, or nothing. */
  lemma {:induction false} LStripDrops(s: string)
    ensures |LStrip(s)| <= |s| && LStrip(s) == s[|s| - |LStrip(s)|..]
    ensures AllSpace(s[..|s| - |LStrip(s)|])
    ensures LStrip(s) == [] || !IsSpace(LStrip(s)[0])
    decreases |s|
  {
    if s != [] && IsSpace(s[0]) {
      var t := s[1..];
      LStripDrops(t);
      var n := |s| - |LStrip(s)|;
      assert t[n - 1..] == s[n..];
      forall k | 0 <= k < n ensures IsSpace(s[..n][k]) {
        if k > 0 {
          assert s[..n][k] == t[..n - 1][k - 1];
        }
      }
    }
  }

  /** `rstrip` removes a whitespace suffix and leaves a prefix that ends with
      a non-whitespace character, or nothing. */
  lemma {:induction false} RStripDrops(s: string)
    ensures |RStrip(s)| <= |s| && RStrip(s) == s[..|RStrip(s)|]
    ensures AllSpace(s[|RStrip(s)|..])
    ensures RStrip(s) == [] || !IsSpace(RStrip(s)[|RStrip(s)| - 1])
    decreases |s|
  {
    if s != [] && IsSpace(s[|s| - 1]) {
      var t := s[..|s| - 1];
      RStripDrops(t);
      var n := |RStrip(s)|;
      assert t[..n] == s[..n];
      forall k | 0 <= k < |s| - n ensures IsSpace(s[n..][k]) {
        if k < |s| - 1 - n {
          assert s[n..][k] == t[n..][k];
        }
      }
    }
  }

  /** `rstrip` keeps every character up to the last non-whitespace one. */
  lemma {:induction false} RStripKeeps(s: string, j: nat)
    requires j < |s| && !IsSpace(s[j])
    ensures j < |RStrip(s)|
    decreases |s|
  {
    if IsSpace(s[|s| - 1]) {
      RStripKeeps(s[..|s| - 1], j);
    }
  }

  /** `strip` yields a slice of `s` with only whitespace around it and none
      at its ends. */
  lemma StripTrims(s: string)
    ensures var r := Strip(s);
      (r == [] || (!IsSpace(r[0]) && !IsSpace(r[|r| - 1])))
      && exists i | 0 <= i <= |s| - |r| :: r == s[i..i + |r|] && AllSpace(s[..i]) && AllSpace(s[i + |r|..])
  {
    var t := LStrip(s);
    LStripDrops(s);
    RStripDrops(t);
    var r := RStrip(t);
    var i := |s| - |t|;
    assert r == s[i..i + |r|];
    assert forall k | 0 <= k < |s| - (i + |r|) :: s[i + |r|..][k] == t[|r|..][k];
  }

  /** Stripping a stripped line changes nothing. */
  lemma StripIdempotent(s: string)
    ensures Strip(Strip(s)) == Strip(s)
  {
    StripTrims(s);
  }

  /** FirstField is a space-free prefix that ends at a space or at the end. */
  lemma {:induction false} FirstFieldSplits(s: string)
    ensures var r := FirstField(s);
      r <= s && ' ' !in r && (|r| == |s| || s[|r|] == ' ')
  {
    if s != [] && s[0] != ' ' {
      FirstFieldSplits(s[1..]);
    }
  }

  /** FirstField is the only string that is a space-free prefix ending at a space or the end. */
  lemma {:induction false} FirstFieldUnique(s: string, r: string)
    requires r <= s && ' ' !in r && (|r| == |s| || s[|r|] == ' ')
    ensures r == FirstField(s)
  {
    if r != [] {
      assert r[0] == s[0] && r[0] != ' ';
      FirstFieldUnique(s[1..], r[1..]);
      assert r == [r[0]] + r[1..];
    }
  }

  /** Record `k` of a file is what a cursor on record `k` of its records holds:
      the record itself inside the file, the padding record past its end. */
  lemma RecordAtIsPending(lines: seq<string>, k: nat)
    ensures RecordAt(lines, k) == Pending(Records(lines), k)
    ensures k < NumRecords(lines) <==> 4 * k < |lines|
  {
    if NumRecords(lines) <= k {
      StripEmpty();
    }
  }

  /** The records of a file are what `next_record` reads from it, and nothing else is. */
  lemma ReadsAsRecords(lines: seq<string>, recs: seq<Record>)
    ensures ReadsAs(lines, Records(lines))
    ensures ReadsAs(lines, recs) ==> recs == Records(lines)
  {
    forall k: nat ensures RecordAt(lines, k) == Pending(Records(lines), k) {
      RecordAtIsPending(lines, k);
    }
    if ReadsAs(lines, recs) {
      forall k | 0 <= k < |recs| ensures recs[k] == Records(lines)[k] {
        assert RecordAt(lines, k) == Pending(recs, k);
      }
    }
  }

  /** The padding record has identifier "". */
  lemma EmptyRecordHead()
    ensures Head(EMPTY_RECORD) == ""
  {
    StripEmpty();
  }

  /** The empty line strips to itself and has the empty identifier. */
  lemma StripEmpty()
    ensures Strip([]) == [] && FirstField([]) == []
  {
  }

  /** Header number `k` is the identifier of line `4 * k`. */
  lemma {:induction false} HeaderOfLine(original: seq<string>, k: nat)
    requires 4 * k < |original|
    ensures k < |Headers(original)| && Headers(original)[k] == Identifier(original[4 * k])
    decreases k
  {
    var rest := original[Min(4, |original|)..];
    assert Headers(original) == [Identifier(original[0])] + Headers(rest);
    if k > 0 {
      HeaderOfLine(rest, k - 1);
      assert rest[4 * (k - 1)] == original[4 * k];
    }
  }

  /** A record inside its file has the identifier of its header line, by the
      same rule as the reference headers. */
  lemma RecordHead(lines: seq<string>, k: nat)
    requires k < NumRecords(lines)
    ensures 4 * k < |lines| && Head(Records(lines)[k]) == Identifier(lines[4 * k])
  {
  }

  /** A header token free of whitespace is its own identifier, whether the line
      ends there or continues after a space (new-style `@ID 1:N:0:...` headers). */
  lemma IdentifierOfToken(token: string, rest: string)
    requires token != [] && forall k | 0 <= k < |token| :: !IsSpace(token[k])
    ensures Identifier(token) == token
    ensures Identifier(token + " " + rest) == token
  {
    // the line without a suffix
    assert LStrip(token) == token;
    assert RStrip(token) == token;
    FirstFieldUnique(token, token);
    // the line with a suffix
    var line := token + " " + rest;
    assert line[0] == token[0];
    assert LStrip(line) == line;
    var r := Strip(line);
    RStripDrops(line);
    RStripKeeps(line, |token| - 1);
    assert r[..|token|] == token;
    assert |r| == |token| || r[|token|] == ' ';
    FirstFieldUnique(r, token);
  }

  /** Old-style mates `@ID/1` and `@ID/2` keep different identifiers: the `/1`,
      `/2` suffix is not removed, so such mates are never paired. */
  lemma OldStyleMatesDiffer(id: string)
    requires forall k | 0 <= k < |id| :: !IsSpace(id[k])
    ensures Identifier(id + "/1") == id + "/1"
    ensures Identifier(id + "/2") == id + "/2"
    ensures Identifier(id + "/1") != Identifier(id + "/2")
  {
    IdentifierOfToken(id + "/1", "");
    IdentifierOfToken(id + "/2", "");
    assert (id + "/1")[|id| + 1] != (id + "/2")[|id| + 1];
  }
}
