/** Reading and printing the text of an HTTP request, one view of the remaining text at a time. */
module HttpText {

  predicate StartsWithNewline(s: string) {
    2 <= |s| && s[0] == '\r' && s[1] == '\n'
  }

  /** First position from `i` on that does not hold `c`, or the end. */
  function Skip(s: string, c: char, i: nat): (k: nat)
    requires i <= |s|
    ensures i <= k <= |s|
    decreases |s| - i
  {
    if i < |s| && s[i] == c then Skip(s, c, i + 1) else i
  }

  predicate IsStop(c: char, delim: char) {
    c == delim || c == '\r' || c == '\n'
  }

  /** First position from `i` on that ends a word, or the end. */
  function WordEnd(s: string, delim: char, i: nat): (k: nat)
    requires i <= |s|
    ensures i <= k <= |s|
    decreases |s| - i
  {
    if i < |s| && !IsStop(s[i], delim) then WordEnd(s, delim, i + 1) else i
  }

  /** It is the only such position. */
  lemma {:induction false} SkipExact(s: string, c: char, i: nat, k: nat)
    requires i <= k <= |s| && (forall j :: i <= j < k ==> s[j] == c) && (k < |s| ==> s[k] != c)
    ensures Skip(s, c, i) == k
    decreases k - i
  {
    if i < k {
      SkipExact(s, c, i + 1, k);
    }
  }

  lemma {:induction false} WordEndExact(s: string, delim: char, i: nat, k: nat)
    requires i <= k <= |s| && (forall j :: i <= j < k ==> !IsStop(s[j], delim)) && (k < |s| ==> IsStop(s[k], delim))
    ensures WordEnd(s, delim, i) == k
    decreases k - i
  {
    if i < k {
      WordEndExact(s, delim, i + 1, k);
    }
  }

  /** The next word and the text behind it and its delimiters; nothing at a line end. */
  function ExtractWord(s: string, delim: char): (r: (string, string))
    ensures |r.1| + |r.0| <= |s|
  {
    if StartsWithNewline(s) then ("", s)
    else
      var first := Skip(s, delim, 0);
      var start := if first == |s| then 0 else first;
      var end := WordEnd(s, delim, start);
      (s[start..end], s[Skip(s, delim, end)..])
  }

  /** The rest of the line without leading blanks, and the text from the line end on. */
  function ExtractUntilNewline(s: string): (r: (string, string))
    ensures |r.1| <= |s|
  {
    if StartsWithNewline(s) then ("", s)
    else
      var first := Skip(s, ' ', 0);
      var start := if first == |s| then 0 else first;
      var end := WordEnd(s, '\n', start);
      (s[start..end], s[end..])
  }

  function ExtractNewline(s: string): (r: (bool, string))
    ensures |r.1| <= |s|
  {
    if StartsWithNewline(s) then (true, s[2..]) else (false, s)
  }

  datatype Header = Header(key: string, value: string)

  datatype Request = Request(verb: string, path: string, version: string, headers: seq<Header>, body: string)

  /** One turn of the header loop: a key with its colon, the value, and the text from the line end on. */
  datatype Line = Line(key: string, value: string, rest: string)

  function ExtractLine(s: string): (line: Line)
    ensures |line.rest| + |line.key| <= |s|
  {
    var (key, afterKey) := ExtractWord(s, ' ');
    var (value, afterValue) := ExtractUntilNewline(afterKey);
    Line(key, value, afterValue)
  }

  function HeaderOf(line: Line): Header
    requires line.key != ""
  {
    Header(line.key[..|line.key| - 1], line.value)
  }

  /** The header lines at the beginning of `s`, and the text behind them. Every input comes to an end: each line
      takes away at least its key. */
  function HeaderLines(s: string): (r: (seq<Header>, string))
    ensures |r.1| <= |s|
    decreases |s|
  {
    var line := ExtractLine(s);
    if line.key == "" then ([], line.rest)
    else
      var more := HeaderLines(ExtractNewline(line.rest).1);
      ([HeaderOf(line)] + more.0, more.1)
  }

  function Parse(s: string): Request {
    var (verb, s1) := ExtractWord(s, ' ');
    var (path, s2) := ExtractWord(s1, ' ');
    var (version, s3) := ExtractWord(s2, ' ');
    var (headers, s4) := HeaderLines(ExtractNewline(s3).1);
    Request(verb, path, version, headers, ExtractNewline(s4).1)
  }

  // ---- printing ----

  const CRLF := "\r\n"

  function Blanks(n: nat): (b: string)
    ensures |b| == n && forall i :: 0 <= i < n ==> b[i] == ' '
  {
    seq(n, _ => ' ')
  }

  /** `key:`, `n` blanks, `value` and a line end. */
  function FieldLine(h: Header, n: nat): string {
    h.key + ":" + Blanks(n) + h.value + CRLF
  }

  /** One `key: value` line per header, followed by `tail`. */
  function PrintHeaders(headers: seq<Header>, tail: string): string {
    if headers == [] then tail else FieldLine(headers[0], 1) + PrintHeaders(headers[1..], tail)
  }

  function Print(r: Request): string {
    r.verb + " " + (r.path + " " + (r.version + (CRLF + PrintHeaders(r.headers, CRLF + r.body))))
  }

  predicate NoStops(s: string, delim: char) {
    forall i :: 0 <= i < |s| ==> !IsStop(s[i], delim)
  }

  /** A text without blanks and line ends. */
  predicate IsWord(s: string) {
    NoStops(s, ' ')
  }

  predicate IsHeader(h: Header) {
    && IsWord(h.key)
    && (forall i :: 0 <= i < |h.value| ==> h.value[i] != '\r' && h.value[i] != '\n')
    && (h.value != "" ==> h.value[0] != ' ')
  }

  predicate Printable(r: Request) {
    && r.verb != "" && IsWord(r.verb)
    && r.path != "" && IsWord(r.path)
    && r.version != "" && IsWord(r.version)
    && forall i :: 0 <= i < |r.headers| ==> IsHeader(r.headers[i])
  }

  // ---- what the extractors find ----

  predicate AllAre(s: string, c: char) {
    forall i :: 0 <= i < |s| ==> s[i] == c
  }

  lemma FourParts(s: string, i: nat, j: nat, k: nat)
    requires i <= j <= k <= |s|
    ensures s == s[..i] + s[i..j] + s[j..k] + s[k..]
  {
  }

  /** What is skipped, and what stops it. */
  lemma {:induction false} SkippedPart(s: string, c: char, i: nat)
    requires i <= |s|
    ensures var k := Skip(s, c, i); AllAre(s[i..k], c) && (k < |s| ==> s[k..][0] != c)
    decreases |s| - i
  {
    if i < |s| && s[i] == c {
      SkippedPart(s, c, i + 1);
      assert s[i..Skip(s, c, i)] == [c] + s[i + 1..Skip(s, c, i)];
    }
  }

  /** The same for a word. */
  lemma {:induction false} WordPart(s: string, delim: char, i: nat)
    requires i <= |s|
    ensures var k := WordEnd(s, delim, i); NoStops(s[i..k], delim) && (k < |s| ==> IsStop(s[k], delim))
    decreases |s| - i
  {
    if i < |s| && !IsStop(s[i], delim) {
      WordPart(s, delim, i + 1);
      assert s[i..WordEnd(s, delim, i)] == [s[i]] + s[i + 1..WordEnd(s, delim, i)];
    }
  }

  /** On every text: delimiters, the word, more delimiters, and the rest, of which the word and the delimiters are as
      long as can be. Nothing is taken off at a line end. */
  lemma WordExact(s: string, delim: char) returns (before: string, behind: string)
    ensures var (word, rest) := ExtractWord(s, delim);
            && s == before + word + behind + rest && AllAre(before, delim) && AllAre(behind, delim)
            && NoStops(word, delim)
            && (StartsWithNewline(s) ==> rest == s)
            && (!StartsWithNewline(s) && rest != "" ==> rest[0] != delim && (behind == "" ==> IsStop(rest[0], delim)))
  {
    before, behind := "", "";
    if !StartsWithNewline(s) {
      var first := Skip(s, delim, 0);
      var start := if first == |s| then 0 else first;
      var end := WordEnd(s, delim, start);
      var next := Skip(s, delim, end);
      before, behind := s[..start], s[end..next];
      FourParts(s, start, end, next);
      SkippedPart(s, delim, 0);
      WordPart(s, delim, start);
      SkippedPart(s, delim, end);
      assert s[0..start] == s[..start];
    }
  }

  /** On every text: blanks, the value, and the rest from the line end on. A value that begins with a blank is a whole
      text of blanks. */
  lemma LineExact(s: string) returns (before: string)
    ensures var (value, rest) := ExtractUntilNewline(s);
            && s == before + value + rest && AllAre(before, ' ') && NoStops(value, '\n')
            && (rest != "" ==> IsStop(rest[0], '\n'))
            && (value != "" && value[0] == ' ' ==> value == s && AllAre(s, ' '))
            && (StartsWithNewline(s) ==> rest == s)
  {
    before := "";
    if !StartsWithNewline(s) {
      var first := Skip(s, ' ', 0);
      var start := if first == |s| then 0 else first;
      var end := WordEnd(s, '\n', start);
      before := s[..start];
      FourParts(s, start, end, end);
      SkippedPart(s, ' ', 0);
      WordPart(s, '\n', start);
      assert s[0..first] == s[..first] && s[end..end] == "";
      assert first == |s| ==> s[..first] == s;
    }
  }

  /** A word followed by `n` blanks is taken off with them, up to the next other character. */
  lemma WordFound(word: string, n: nat, tail: string)
    requires word != "" && IsWord(word)
    requires tail != "" ==> tail[0] != ' '
    requires n == 0 ==> tail != "" && IsStop(tail[0], ' ')
    ensures ExtractWord(word + Blanks(n) + tail, ' ') == (word, tail)
  {
    var s := word + Blanks(n) + tail;
    assert s[0] == word[0] && s[..|word|] == word && s[|word| + n..] == tail;
    assert forall j :: 0 <= j < |word| ==> s[j] == word[j];
    assert forall j :: |word| <= j < |word| + n ==> s[j] == ' ';
    assert tail != "" ==> s[|word| + n] == tail[0];
    assert |word| < |s| ==> IsStop(s[|word|], ' ');
    SkipExact(s, ' ', 0, 0);
    WordEndExact(s, ' ', 0, |word|);
    SkipExact(s, ' ', |word|, |word| + n);
  }

  /** The rest of a line is everything up to the line end. */
  lemma LineFound(value: string, tail: string)
    requires forall i :: 0 <= i < |value| ==> value[i] != '\r' && value[i] != '\n'
    requires (value != "" ==> value[0] != ' ') && StartsWithNewline(tail)
    ensures ExtractUntilNewline(value + tail) == (value, tail)
  {
    var s := value + tail;
    if value != "" {
      assert s[0] == value[0] && s[|value|] == '\r';
      assert forall j :: 0 <= j < |value| ==> s[j] == value[j];
      SkipExact(s, ' ', 0, 0);
      WordEndExact(s, '\n', 0, |value|);
    } else {
      assert s == tail;
    }
  }

  lemma NoHeader(s: string)
    requires StartsWithNewline(s)
    ensures HeaderLines(s) == ([], s)
  {
  }

  /** A field line with a blank behind the colon, or without a value, is read back as written. */
  lemma FieldFound(h: Header, n: nat, tail: string)
    requires IsHeader(h) && (0 < n || h.value == "")
    ensures HeaderLines(FieldLine(h, n) + tail) == ([h] + HeaderLines(tail).0, HeaderLines(tail).1)
  {
    var word, end := h.key + ":", CRLF + tail;
    var s, after := FieldLine(h, n) + tail, h.value + end;
    assert s == word + Blanks(n) + after;
    assert h.value != "" ==> after[0] == h.value[0];
    WordFound(word, n, after);
    LineFound(h.value, end);
    AfterNewline(tail);
    assert ExtractLine(s) == Line(word, h.value, end) && HeaderOf(ExtractLine(s)) == h;
  }

  /** A field line is read back as written if and only if it has a blank behind the colon or no value;
      section 5 of RFC 9112 makes the blank optional. */
  lemma FieldLineExact(h: Header, n: nat, tail: string)
    requires IsHeader(h)
    ensures HeaderLines(FieldLine(h, n) + tail).0 != []
    ensures HeaderLines(FieldLine(h, n) + tail).0[0] == h <==> 0 < n || h.value == ""
  {
    if 0 < n || h.value == "" {
      FieldFound(h, n, tail);
    } else {
      assert FieldLine(h, n) + tail == (h.key + ":") + h.value + (CRLF + tail);
      GluedKey(h.key + ":", h.value, CRLF + tail);
    }
  }

  /** Without a blank the value, up to its own first blank, counts as part of the key. */
  lemma GluedKey(word: string, value: string, tail: string)
    requires word != "" && IsWord(word) && value != "" && value[0] != ' ' && value[0] != '\r' && value[0] != '\n'
    ensures |ExtractWord(word + value + tail, ' ').0| > |word|
  {
    var s := word + value + tail;
    assert s[0] == word[0] && s[|word|] == value[0];
    assert forall j :: 0 <= j < |word| ==> s[j] == word[j];
    WordPart(s, ' ', 0);
  }

  lemma {:induction false} HeadersFound(headers: seq<Header>, body: string)
    requires forall i :: 0 <= i < |headers| ==> IsHeader(headers[i])
    ensures HeaderLines(PrintHeaders(headers, CRLF + body)) == (headers, CRLF + body)
  {
    if headers == [] {
      NoHeader(CRLF + body);
    } else {
      HeadersFound(headers[1..], body);
      FieldFound(headers[0], 1, PrintHeaders(headers[1..], CRLF + body));
      assert headers == [headers[0]] + headers[1..];
    }
  }

  /** Printing a request and reading it gives the request back: first line, fields, and any body whatsoever. */
  lemma ParsePrint(r: Request)
    requires Printable(r)
    ensures Parse(Print(r)) == r
  {
    var fields := PrintHeaders(r.headers, CRLF + r.body);
    var fromVersion := r.version + (CRLF + fields);
    var fromPath := r.path + " " + fromVersion;
    FirstWord(r.version, CRLF + fields);
    NextWord(r.path, fromVersion);
    NextWord(r.verb, fromPath);
    AfterNewline(fields);
    HeadersFound(r.headers, r.body);
    AfterNewline(r.body);
  }

  lemma NextWord(word: string, tail: string)
    requires word != "" && IsWord(word) && tail != "" && tail[0] != ' '
    ensures ExtractWord(word + " " + tail, ' ') == (word, tail)
  {
    assert " " == Blanks(1);
    WordFound(word, 1, tail);
  }

  lemma FirstWord(word: string, tail: string)
    requires word != "" && IsWord(word) && StartsWithNewline(tail)
    ensures ExtractWord(word + tail, ' ') == (word, tail)
  {
    assert word + tail == word + Blanks(0) + tail;
    WordFound(word, 0, tail);
  }

  lemma AfterNewline(s: string)
    ensures StartsWithNewline(CRLF + s) && ExtractNewline(CRLF + s).1 == s
  {
    assert (CRLF + s)[2..] == s;
  }
}
