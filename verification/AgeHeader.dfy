/** `best`'s bounded scan for the end of an age header, and its bounded copy loop. */
module AgeHeader {
  import opened Bytes
  import opened Streams

  const MAX_HEADER_BYTES := 64 * 1024
  const NEWLINE := 10
  /** `b"age-encryption.org/v1\n"`, `b"--- "` and `b"-> "`. */
  const MAGIC_LINE: seq<byte> :=
    [97, 103, 101, 45, 101, 110, 99, 114, 121, 112, 116, 105, 111, 110, 46, 111, 114, 103, 47, 118, 49, 10]
  const FOOTER_START: seq<byte> := [45, 45, 45, 32]
  const STANZA_START: seq<byte> := [45, 62, 32]

  datatype Error = Invalid | Limit | Io

  // --- The grammar -----------------------------------------------------------------------------------------

  predicate IsLine(l: seq<byte>)
  {
    l != [] && l[|l| - 1] == NEWLINE && forall i :: 0 <= i < |l| - 1 ==> l[i] != NEWLINE
  }

  predicate IsFooter(l: seq<byte>) { FOOTER_START <= l }

  /** A line that opens a stanza or the footer. */
  predicate IsMarker(l: seq<byte>) { IsFooter(l) || STANZA_START <= l }

  /** A body line of fewer than 64 characters, newline aside: it ends a stanza. */
  predicate IsShortBody(l: seq<byte>) { !IsMarker(l) && |l| < 65 }

  function Flatten(lines: seq<seq<byte>>): seq<byte>
  {
    if lines == [] then [] else Flatten(lines[..|lines| - 1]) + lines[|lines| - 1]
  }

  /** Version line first, footer line last and only there, and every marker line directly after the version line
      or after a short body line. */
  predicate Grammar(lines: seq<seq<byte>>)
  {
    && |lines| >= 2
    && (forall i :: 0 <= i < |lines| ==> IsLine(lines[i]))
    && lines[0] == MAGIC_LINE
    && (forall i :: 0 < i < |lines| ==> (IsFooter(lines[i]) <==> i == |lines| - 1))
    && (forall i :: 0 < i < |lines| && IsMarker(lines[i]) ==> i == 1 || IsShortBody(lines[i - 1]))
  }

  /** These lines are the header of the input. */
  predicate IsHeader(input: seq<byte>, lines: seq<seq<byte>>)
  {
    Grammar(lines) && |Flatten(lines)| <= MAX_HEADER_BYTES && Flatten(lines) <= input
  }

  lemma FlattenMore(lines: seq<seq<byte>>, l: seq<byte>)
    ensures Flatten(lines + [l]) == Flatten(lines) + l
  {
    assert (lines + [l])[..|lines|] == lines;
  }

  lemma {:induction false} FlattenPrefix(lines: seq<seq<byte>>, k: nat)
    requires k <= |lines|
    ensures Flatten(lines[..k]) <= Flatten(lines)
    ensures k < |lines| ==> Flatten(lines[..k]) + lines[k] <= Flatten(lines)
    decreases |lines| - k
  {
    if k < |lines| {
      FlattenPrefix(lines, k + 1);
      FlattenMore(lines[..k], lines[k]);
      assert lines[..k + 1] == lines[..k] + [lines[k]];
    } else {
      assert lines[..k] == lines;
    }
  }

  /** Where a line ends is determined by the bytes. */
  lemma SameLine(s: seq<byte>, a: seq<byte>, b: seq<byte>)
    requires IsLine(a) && IsLine(b) && a <= s && b <= s
    ensures a == b
  {
    assert |b| <= |a| ==> a[|b| - 1] == b[|b| - 1];
    assert |a| <= |b| ==> b[|a| - 1] == a[|a| - 1];
  }

  lemma {:induction false} SameLines(input: seq<byte>, a: seq<seq<byte>>, b: seq<seq<byte>>, k: nat)
    requires IsHeader(input, a) && IsHeader(input, b) && k <= |a| && k <= |b|
    ensures a[..k] == b[..k]
  {
    hide Flatten, IsFooter, IsMarker, IsShortBody;
    if k > 0 {
      SameLines(input, a, b, k - 1);
      FlattenPrefix(a, k - 1);
      FlattenPrefix(b, k - 1);
      After(input, Flatten(a[..k - 1]), a[k - 1]);
      After(input, Flatten(b[..k - 1]), b[k - 1]);
      SameLine(input[|Flatten(a[..k - 1])|..], a[k - 1], b[k - 1]);
      assert a[..k] == a[..k - 1] + [a[k - 1]] && b[..k] == b[..k - 1] + [b[k - 1]];
    }
  }

  /** An input has at most one header. */
  lemma HeaderIsUnique(input: seq<byte>, a: seq<seq<byte>>, b: seq<seq<byte>>)
    requires IsHeader(input, a) && IsHeader(input, b)
    ensures a == b
  {
    hide Flatten, IsFooter, IsMarker, IsShortBody;
    var k := Min(|a|, |b|);
    SameLines(input, a, b, k);
    assert a[k - 1] == a[..k][k - 1] == b[..k][k - 1] == b[k - 1];
    assert IsFooter(a[k - 1]) <==> IsFooter(b[k - 1]);
    assert a[..|a|] == a && b[..|b|] == b;
  }

  /** The scan has read `lines`, all acceptable so far; `ended` says whether a marker may come next. */
  ghost predicate Scanned(input: seq<byte>, lines: seq<seq<byte>>, ended: bool)
  {
    && Flatten(lines) <= input && |Flatten(lines)| <= MAX_HEADER_BYTES
    && (forall i :: 0 <= i < |lines| ==> IsLine(lines[i]))
    && (lines != [] ==> lines[0] == MAGIC_LINE)
    && (forall i :: 0 < i < |lines| ==> !IsFooter(lines[i]))
    && (forall i :: 0 < i < |lines| && IsMarker(lines[i]) ==> i == 1 || IsShortBody(lines[i - 1]))
    && (ended <==> |lines| <= 1 || IsShortBody(lines[|lines| - 1]))
    // every header of this input starts with these lines and has more
    && (forall good :: IsHeader(input, good) ==> |good| > |lines| && good[..|lines|] == lines)
  }

  /** The next line of any header of the input starts where the scan stands, and ends within the limit. */
  lemma NextLine(input: seq<byte>, lines: seq<seq<byte>>, ended: bool, good: seq<seq<byte>>)
    requires Scanned(input, lines, ended) && IsHeader(input, good)
    ensures var at := |Flatten(lines)|;
            && |good| > |lines| && good[..|lines|] == lines && IsLine(good[|lines|])
            && at <= |input| && good[|lines|] <= input[at..] && at + |good[|lines|]| <= MAX_HEADER_BYTES
  {
    var at := |Flatten(lines)|;
    FlattenPrefix(good, |lines|);
    var l := good[|lines|];
    assert Flatten(lines) + l <= input;
    assert input[at..][..|l|] == (Flatten(lines) + l)[at..];
  }

  lemma StartScan(input: seq<byte>)
    ensures Scanned(input, [], true)
  {
  }

  /** What the grammar says about the line after `lines`. */
  lemma GrammarNext(input: seq<byte>, lines: seq<seq<byte>>, good: seq<seq<byte>>)
    requires IsHeader(input, good) && |good| > |lines| && good[..|lines|] == lines
    ensures var l := good[|lines|];
            && (lines == [] ==> l == MAGIC_LINE && |good| > 1)
            && (lines != [] && IsMarker(l) ==> |lines| == 1 || IsShortBody(lines[|lines| - 1]))
            && (lines != [] && !IsFooter(l) ==> |good| > |lines| + 1)
  {
    hide IsFooter, IsMarker, IsShortBody, Flatten;
    assert lines != [] ==> good[|lines| - 1] == lines[|lines| - 1];
  }

  /** A line that is read there is that line, and so it is acceptable. */
  lemma NextLineFits(input: seq<byte>, lines: seq<seq<byte>>, ended: bool, l: seq<byte>, good: seq<seq<byte>>)
    requires Scanned(input, lines, ended) && IsHeader(input, good)
    requires IsLine(l) && Flatten(lines) + l <= input
    ensures |good| > |lines| && good[..|lines| + 1] == lines + [l]
    ensures lines == [] ==> l == MAGIC_LINE && |good| > 1
    ensures lines != [] && IsMarker(l) ==> ended
    ensures lines != [] && !IsFooter(l) ==> |good| > |lines| + 1
  {
    hide Flatten, IsFooter, IsMarker, IsShortBody, IsHeader, IsLine, Scanned;
    NextLine(input, lines, ended, good);
    GrammarNext(input, lines, good);
    EndedMeans(input, lines, ended);
    After(input, Flatten(lines), l);
    SameLine(input[|Flatten(lines)|..], l, good[|lines|]);
    OneMore(good, lines);
  }

  lemma OneMore(good: seq<seq<byte>>, lines: seq<seq<byte>>)
    requires |good| > |lines| && good[..|lines|] == lines
    ensures good[..|lines| + 1] == lines + [good[|lines|]]
  {
  }

  lemma EndedMeans(input: seq<byte>, lines: seq<seq<byte>>, ended: bool)
    requires Scanned(input, lines, ended)
    ensures ended <==> |lines| <= 1 || IsShortBody(lines[|lines| - 1])
  {
  }

  lemma After(s: seq<byte>, a: seq<byte>, b: seq<byte>)
    requires a + b <= s
    ensures b <= s[|a|..]
  {
    assert s[|a|..][..|b|] == (a + b)[|a|..] == b;
  }

  /** One more acceptable line. */
  lemma ScanOne(input: seq<byte>, lines: seq<seq<byte>>, ended: bool, l: seq<byte>)
    requires Scanned(input, lines, ended) && IsLine(l)
    requires Flatten(lines) + l <= input && |Flatten(lines) + l| <= MAX_HEADER_BYTES
    requires lines == [] ==> l == MAGIC_LINE
    requires lines != [] ==> !IsFooter(l) && (IsMarker(l) ==> ended)
    ensures Scanned(input, lines + [l], lines == [] || IsShortBody(l))
  {
    hide Flatten, IsFooter, IsMarker, IsShortBody, IsHeader, IsLine;
    var more := lines + [l];
    FlattenMore(lines, l);
    forall good | IsHeader(input, good)
      ensures |good| > |more| && good[..|more|] == more
    {
      NextLineFits(input, lines, ended, l, good);
    }
  }

  /** An unacceptable line means that the input has no header. */
  lemma ScanFails(input: seq<byte>, lines: seq<seq<byte>>, ended: bool, l: seq<byte>)
    requires Scanned(input, lines, ended) && IsLine(l) && Flatten(lines) + l <= input
    requires (lines == [] && l != MAGIC_LINE) || (lines != [] && IsMarker(l) && !ended)
    ensures forall good :: !IsHeader(input, good)
  {
    hide Scanned, Flatten, IsMarker, IsHeader, IsLine;
    forall good
      ensures !IsHeader(input, good)
    {
      if IsHeader(input, good) { NextLineFits(input, lines, ended, l, good); }
    }
  }

  /** A footer line in its place completes the header. */
  lemma ScanDone(input: seq<byte>, lines: seq<seq<byte>>, ended: bool, l: seq<byte>)
    requires Scanned(input, lines, ended) && IsLine(l) && lines != [] && IsFooter(l) && ended
    requires Flatten(lines) + l <= input && |Flatten(lines) + l| <= MAX_HEADER_BYTES
    ensures IsHeader(input, lines + [l]) && Flatten(lines + [l]) == Flatten(lines) + l
  {
    hide IsMarker, IsShortBody, IsLine, Flatten;
    FlattenMore(lines, l);
  }

  /** If what lies between here and the limit, or the end of the input, is all of `part`, then the next line of
      any header ends within it. */
  lemma LineEndsWithin(input: seq<byte>, lines: seq<seq<byte>>, ended: bool, part: seq<byte>, good: seq<seq<byte>>)
    requires Scanned(input, lines, ended) && Flatten(lines) + part <= input && IsHeader(input, good)
    requires |Flatten(lines) + part| == MAX_HEADER_BYTES || Flatten(lines) + part == input
    ensures exists i :: 0 <= i < |part| && part[i] == NEWLINE
  {
    hide Scanned, Flatten, IsHeader;
    NextLine(input, lines, ended, good);
    var at, l := |Flatten(lines)|, good[|lines|];
    assert |l| <= |part|;
    assert input[at..][..|part|] == (Flatten(lines) + part)[at..] == part;
    assert part[|l| - 1] == l[|l| - 1];
  }

  lemma NoRoom(input: seq<byte>, lines: seq<seq<byte>>, ended: bool, part: seq<byte>)
    requires Scanned(input, lines, ended) && Flatten(lines) + part <= input
    requires forall i :: 0 <= i < |part| ==> part[i] != NEWLINE
    requires |Flatten(lines) + part| == MAX_HEADER_BYTES || Flatten(lines) + part == input
    ensures forall good :: !IsHeader(input, good)
  {
    hide Scanned, Flatten, IsHeader;
    forall good
      ensures !IsHeader(input, good)
    {
      if IsHeader(input, good) { LineEndsWithin(input, lines, ended, part, good); }
    }
  }

  // --- The scan --------------------------------------------------------------------------------------------

  /** An input that can be read byte by byte out of a buffer, with a fault somewhere perhaps. */
  class Source {
    const data: seq<byte>
    const fault: Option<nat>
    var pos: nat

    constructor (data: seq<byte>, fault: Option<nat>)
      ensures this.data == data && this.fault == fault && pos == 0
    {
      this.data, this.fault, pos := data, fault, 0;
    }

    /** `take(left).read_until(b'\n')`: up to and including the next newline, at most `left` bytes. */
    method ReadUntil(left: nat) returns (r: Option<seq<byte>>)
      requires pos <= |data|
      modifies this`pos
      ensures old(pos) <= pos <= |data|
      ensures pos <= old(pos) + left
      ensures fault.None? ==> r.Some?
      ensures r.Some? ==>
        && r.value == data[old(pos)..pos] && |r.value| <= left
        && (forall i :: 0 <= i < |r.value| - 1 ==> r.value[i] != NEWLINE)
        && (r.value == [] || r.value[|r.value| - 1] != NEWLINE ==> |r.value| == left || pos == |data|)
    {
      var line: seq<byte> := [];
      while |line| < left && pos < |data|
        invariant old(pos) <= pos <= |data| && line == data[old(pos)..pos] && |line| <= left
        invariant forall i :: 0 <= i < |line| ==> line[i] != NEWLINE
        decreases |data| - pos
      {
        if fault == Some(pos) { return None; }
        line := line + [data[pos]];
        pos := pos + 1;
        if line[|line| - 1] == NEWLINE { return Some(line); }
      }
      return Some(line);
    }
  }

  /** The next complete line within the limit, or the certainty that there is no header. */
  method ReadHeaderLine(source: Source, ghost lines: seq<seq<byte>>, ghost ended: bool) returns (r: Result<seq<byte>, Error>)
    requires source.pos <= |source.data| && Scanned(source.data, lines, ended) && Flatten(lines) == source.data[..source.pos]
    requires source.pos <= MAX_HEADER_BYTES
    modifies source`pos
    ensures old(source.pos) <= source.pos <= |source.data| && source.pos <= MAX_HEADER_BYTES
    ensures r.Ok? ==> IsLine(r.value) && Flatten(lines) + r.value == source.data[..source.pos] && old(source.pos) < source.pos
    ensures r.Err? ==> r.error == Invalid || (r.error == Io && source.fault.Some?)
    ensures r == Err(Invalid) ==> forall good :: !IsHeader(source.data, good)
  {
    hide Scanned, IsHeader, Flatten;
    var left := MAX_HEADER_BYTES - source.pos;
    if left == 0 {
      NoRoom(source.data, lines, ended, []);
      return Err(Invalid);
    }
    ghost var at := source.pos;
    var read := source.ReadUntil(left);
    if read.None? { return Err(Io); }
    var line := read.value;
    assert source.data[..at] + source.data[at..source.pos] == source.data[..source.pos];
    if line == [] || line[|line| - 1] != NEWLINE {
      assert source.pos == |source.data| ==> source.data[..source.pos] == source.data;
      NoRoom(source.data, lines, ended, line);
      return Err(Invalid);
    }
    return Ok(line);
  }

  /** `bounded_input`: succeeds exactly on the inputs that have a header within the limit; the header and what
      is left in the source are the input, byte for byte. */
  method BoundedInput(source: Source) returns (r: Result<seq<byte>, Error>)
    requires source.pos == 0
    modifies source`pos
    ensures source.pos <= |source.data|
    ensures r.Ok? ==>
      && r.value + source.data[source.pos..] == source.data && |r.value| <= MAX_HEADER_BYTES
      && exists lines :: IsHeader(source.data, lines) && r.value == Flatten(lines)
    ensures r.Err? ==> r.error == Invalid || (r.error == Io && source.fault.Some?)
    ensures r == Err(Invalid) ==> forall lines :: !IsHeader(source.data, lines)
  {
    hide Scanned, IsHeader, Flatten, Grammar, IsLine, IsShortBody;
    var header: seq<byte> := [];
    var stanzaEnded := true;
    ghost var lines: seq<seq<byte>> := [];
    StartScan(source.data);
    FlattenEmpty();
    while true
      invariant source.pos == |header| <= |source.data| && header == source.data[..source.pos] == Flatten(lines)
      invariant |header| <= MAX_HEADER_BYTES && (lines == [] <==> header == []) && (lines == [] ==> stanzaEnded)
      invariant Scanned(source.data, lines, stanzaEnded)
      decreases |source.data| - source.pos
    {
      var start := |header|;
      var read := ReadHeaderLine(source, lines, stanzaEnded);
      if read.Err? { return Err(read.error); }
      var line := read.value;
      header := header + line;
      if start == 0 && header != MAGIC_LINE {
        ScanFails(source.data, lines, stanzaEnded, line);
        return Err(Invalid);
      }
      assert start == 0 ==> header == line;
      MagicIsNoMarker();
      var footer := FOOTER_START <= line;
      if footer || STANZA_START <= line {
        if !stanzaEnded {
          ScanFails(source.data, lines, stanzaEnded, line);
          return Err(Invalid);
        }
        if footer {
          ScanDone(source.data, lines, stanzaEnded, line);
          return Ok(header);
        }
      }
      ScanOne(source.data, lines, stanzaEnded, line);
      FlattenMore(lines, line);
      ShortBodyMeans(line);
      if STANZA_START <= line {
        stanzaEnded := false;
      } else if start != 0 {
        stanzaEnded := |line| < 65;
      }
      lines := lines + [line];
    }
  }

  lemma MagicIsNoMarker()
    ensures !(FOOTER_START <= MAGIC_LINE) && !(STANZA_START <= MAGIC_LINE)
  {
    assert MAGIC_LINE[0] != FOOTER_START[0] && MAGIC_LINE[0] != STANZA_START[0];
  }

  lemma ShortBodyMeans(l: seq<byte>)
    ensures IsShortBody(l) <==> !(FOOTER_START <= l || STANZA_START <= l) && |l| < 65
  {
  }

  lemma FlattenEmpty()
    ensures Flatten([]) == []
  {
  }

  /** `transfer`: copies everything in whatever pieces it arrives, unless there is more than allowed. */
  method Transfer(reader: Handle, writer: Writer, maxBytes: Option<nat>) returns (r: Result<nat, Error>)
    requires reader.Valid() && reader.pos == 0
    modifies reader`pos, reader`calls, writer`out
    ensures old(writer.out) <= writer.out <= old(writer.out) + reader.data
    ensures maxBytes.Some? ==> |writer.out| <= |old(writer.out)| + maxBytes.value
    ensures r.Ok? ==> writer.out == old(writer.out) + reader.data && r.value == |reader.data|
    ensures writer.capacity.None? ==>
      r == if |reader.data| >= U64_END || (maxBytes.Some? && |reader.data| > maxBytes.value) then Err(Limit)
           else Ok(|reader.data|)
  {
    var buffer := new byte[64 * 1024];
    var total := 0;
    ghost var start := writer.out;
    while true
      invariant reader.Valid() && total == reader.pos < U64_END && (maxBytes.Some? ==> total <= maxBytes.value)
      invariant writer.out == start + reader.data[..total]
      decreases |reader.data| - reader.pos
    {
      ghost var at := reader.pos;
      var count := reader.Read(buffer, buffer.Length);
      if count == 0 { break; }
      if total + count >= U64_END { return Err(Limit); }
      total := total + count;
      if maxBytes.Some? && total > maxBytes.value { return Err(Limit); }
      assert reader.data[..at] + reader.data[at..total] == reader.data[..total];
      assert start + reader.data[..at] + buffer[..count] == start + reader.data[..total];
      assert reader.data == reader.data[..total] + reader.data[total..];
      var ok := writer.WriteAll(buffer[..count]);
      if !ok { return Err(Io); }
    }
    assert reader.data[..total] == reader.data;
    return Ok(total);
  }
}
