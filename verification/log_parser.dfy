/**
 The offline log parser: it cuts a node's log into connection-monitoring
 sections and reads the signal-strength measurements out of them, tagging
 each with the node pair named by the most recent section header.
 */
module LogParser {
  import opened Wrappers
  import opened LogLines

  // ---- sections ----

  /** How the section splitter treats a line; a line that is both a START and an END counts as START. */
  datatype Marker = StartMarker | EndMarker | Content

  function MarkerOf(line: string): Marker {
    if IsMonitorStart(line) then StartMarker
    else if IsMonitorEnd(line) then EndMarker
    else Content
  }

  /** The splitter's state: whether a section is open, its lines so far, and the sections closed so far. */
  datatype SectionScan = SectionScan(open: bool, current: seq<string>, sections: seq<seq<string>>)

  /**
   One line of the splitter: START opens (or keeps open) a section; END
   closes an open section, appending it even when empty, and is ignored
   when none is open; any other line joins an open section.
   */
  function ScanLine(st: SectionScan, line: string): (r: SectionScan)
    ensures r.open <==> MarkerOf(line) == StartMarker || (st.open && MarkerOf(line) == Content)
    ensures r.sections == st.sections || (st.open && r.sections == st.sections + [st.current] && r.current == [])
  {
    match MarkerOf(line)
    case StartMarker => st.(open := true)
    case EndMarker => if !st.open then st else SectionScan(false, [], st.sections + [st.current])
    case Content => if st.open then st.(current := st.current + [line]) else st
  }

  /** The splitter's state after reading `lines` in order. */
  function Scan(lines: seq<string>): (r: SectionScan)
    ensures !r.open ==> r.current == []
    ensures |r.sections| <= |lines|
  {
    if lines == [] then SectionScan(false, [], [])
    else ScanLine(Scan(lines[..|lines| - 1]), lines[|lines| - 1])
  }

  /** `get_connection_monitoring_sections`: the closed sections, then the one still open at the end of the log. */
  function Sections(lines: seq<string>): (r: seq<seq<string>>)
    ensures Flatten(r) == Inside(lines)
  {
    ScanCollectsInside(lines);
    var st := Scan(lines);
    if st.open then st.sections + [st.current] else st.sections
  }

  function Flatten(ss: seq<seq<string>>): seq<string> {
    if ss == [] then [] else Flatten(ss[..|ss| - 1]) + ss[|ss| - 1]
  }

  /** No END line follows position `j` of `lines`. */
  ghost predicate NoEndAfter(lines: seq<string>, j: int) {
    forall k :: 0 <= k < |lines| && j < k ==> MarkerOf(lines[k]) != EndMarker
  }

  /** After `lines`, a monitoring section is open: some START was read and no END after it. */
  ghost predicate OpenAfter(lines: seq<string>) {
    exists j :: 0 <= j < |lines| && MarkerOf(lines[j]) == StartMarker && NoEndAfter(lines, j)
  }

  /** The lines of the log read inside a monitoring section, in order: non-marker lines read while a section is open. */
  ghost function Inside(lines: seq<string>): seq<string> {
    if lines == [] then []
    else
      var init := lines[..|lines| - 1];
      var last := lines[|lines| - 1];
      Inside(init) + (if MarkerOf(last) == Content && OpenAfter(init) then [last] else [])
  }

  /** A START line opens a section. */
  lemma OpenAfterStart(init: seq<string>, last: string)
    requires MarkerOf(last) == StartMarker
    ensures OpenAfter(init + [last])
  {
    var lines := init + [last];
    assert MarkerOf(lines[|init|]) == StartMarker && NoEndAfter(lines, |init|);
  }

  /** An END line leaves no section open. */
  lemma ClosedAfterEnd(init: seq<string>, last: string)
    requires MarkerOf(last) == EndMarker
    ensures !OpenAfter(init + [last])
  {
    var lines := init + [last];
    forall j | 0 <= j < |lines| && MarkerOf(lines[j]) == StartMarker
      ensures !NoEndAfter(lines, j)
    {
      assert MarkerOf(lines[|init|]) == EndMarker;
    }
  }

  /** An ordinary line does not change whether a section is open. */
  lemma OpenAfterContent(init: seq<string>, last: string)
    requires MarkerOf(last) == Content
    ensures OpenAfter(init + [last]) <==> OpenAfter(init)
  {
    var lines := init + [last];
    if OpenAfter(init) {
      var j :| 0 <= j < |init| && MarkerOf(init[j]) == StartMarker && NoEndAfter(init, j);
      assert lines[j] == init[j];
      forall k | j < k < |lines| ensures MarkerOf(lines[k]) != EndMarker {
        if k < |init| {
          assert lines[k] == init[k];
        }
      }
      assert NoEndAfter(lines, j);
    }
    if OpenAfter(lines) {
      var j :| 0 <= j < |lines| && MarkerOf(lines[j]) == StartMarker && NoEndAfter(lines, j);
      assert j < |init|;
      assert lines[j] == init[j];
      forall k | j < k < |init| ensures MarkerOf(init[k]) != EndMarker {
        assert lines[k] == init[k];
      }
      assert NoEndAfter(init, j);
    }
  }

  /** Whether the splitter holds a section open agrees with the reference reading of the log. */
  lemma {:induction false} ScanOpenIff(lines: seq<string>)
    ensures Scan(lines).open <==> OpenAfter(lines)
    decreases |lines|
  {
    if lines != [] {
      var init := lines[..|lines| - 1];
      var last := lines[|lines| - 1];
      assert lines == init + [last];
      ScanOpenIff(init);
      match MarkerOf(last)
      case StartMarker => OpenAfterStart(init, last);
      case EndMarker => ClosedAfterEnd(init, last);
      case Content => OpenAfterContent(init, last);
    }
  }

  /**
   What the splitter has collected is the inside reading of the log: closed
   sections and the open one together hold exactly the inside lines, and
   nothing is pending while no section is open.
   */
  lemma {:induction false} ScanCollectsInside(lines: seq<string>)
    ensures Flatten(Scan(lines).sections) + Scan(lines).current == Inside(lines)
    ensures !Scan(lines).open ==> Scan(lines).current == []
    decreases |lines|
  {
    if lines != [] {
      var init := lines[..|lines| - 1];
      var last := lines[|lines| - 1];
      var st := Scan(init);
      ScanCollectsInside(init);
      ScanOpenIff(init);
      assert Scan(lines) == ScanLine(st, last);
      var taken := if MarkerOf(last) == Content && OpenAfter(init) then [last] else [];
      assert Inside(lines) == Inside(init) + taken;
      match MarkerOf(last)
      case StartMarker =>
        assert taken == [];
        assert Inside(init) + [] == Inside(init);
      case EndMarker =>
        assert taken == [];
        assert Inside(init) + [] == Inside(init);
        if st.open {
          assert Flatten(st.sections + [st.current]) == Flatten(st.sections) + st.current;
          assert Flatten(st.sections) + st.current + [] == Flatten(st.sections) + st.current;
        }
      case Content =>
        if st.open {
          assert taken == [last];
          assert Flatten(st.sections) + (st.current + [last]) == Flatten(st.sections) + st.current + [last];
        } else {
          assert Inside(init) + [] == Inside(init);
        }
    }
  }

  /** The sections, read one after another, are exactly the inside lines of the log. */
  lemma SectionsAreInside(lines: seq<string>)
    ensures Flatten(Sections(lines)) == Inside(lines)
  {
    var st := Scan(lines);
    ScanCollectsInside(lines);
    if st.open {
      assert Flatten(st.sections + [st.current]) == Flatten(st.sections) + st.current;
    }
  }

  /** An END line read while no section is open changes nothing. */
  lemma EndWhileClosedIgnored(lines: seq<string>, x: string)
    requires !Scan(lines).open && MarkerOf(x) == EndMarker
    ensures Scan(lines + [x]) == Scan(lines)
    ensures Sections(lines + [x]) == Sections(lines)
  {
    assert (lines + [x])[..|lines|] == lines;
  }

  /** A second START while a section is open continues that section: nothing is flushed. */
  lemma SecondStartContinues(lines: seq<string>, x: string)
    requires Scan(lines).open && MarkerOf(x) == StartMarker
    ensures Scan(lines + [x]) == Scan(lines)
    ensures Sections(lines + [x]) == Sections(lines)
  {
    assert (lines + [x])[..|lines|] == lines;
  }

  /** Splitting off the last line of a concatenation. */
  lemma SplitLast(a: seq<string>, b: seq<string>)
    requires b != []
    ensures a + b == (a + b[..|b| - 1]) + [b[|b| - 1]]
    ensures b[..|b| - 1] + [b[|b| - 1]] == b
  {
  }

  /** Every line is an ordinary line. */
  predicate AllContent(lines: seq<string>) {
    lines == [] || (AllContent(lines[..|lines| - 1]) && MarkerOf(lines[|lines| - 1]) == Content)
  }

  /** One ordinary line read while a section is open joins it. */
  lemma ContentJoins(lines: seq<string>, x: string)
    requires Scan(lines).open && MarkerOf(x) == Content
    ensures Scan(lines + [x]) == Scan(lines).(current := Scan(lines).current + [x])
  {
    assert (lines + [x])[..|lines|] == lines;
  }

  /** Ordinary lines read while a section is open are appended to it, in order. */
  lemma {:induction false} ContentJoinsOpenSection(pre: seq<string>, rest: seq<string>)
    requires Scan(pre).open
    requires AllContent(rest)
    ensures Scan(pre + rest) == Scan(pre).(current := Scan(pre).current + rest)
    decreases |rest|
  {
    var st := Scan(pre);
    if rest == [] {
      assert pre + rest == pre;
      assert st.current + rest == st.current;
    } else {
      var init := rest[..|rest| - 1];
      var last := rest[|rest| - 1];
      ContentJoinsOpenSection(pre, init);
      SplitLast(pre, rest);
      ContentJoins(pre + init, last);
      assert st.current + init + [last] == st.current + rest;
    }
  }

  /**
   A section that a START opens and no END closes is still emitted at the
   end of the log, holding the lines read after the START.
   */
  lemma OpenSectionEmitted(pre: seq<string>, start: string, rest: seq<string>)
    requires !Scan(pre).open && MarkerOf(start) == StartMarker
    requires AllContent(rest)
    ensures Sections(pre + [start] + rest) == Sections(pre) + [rest]
  {
    ScanCollectsInside(pre);
    var withStart := pre + [start];
    StartOpens(pre, start);
    ContentJoinsOpenSection(withStart, rest);
    assert Scan(withStart + rest) == SectionScan(true, rest, Scan(pre).sections);
  }

  /** A START line opens a section and keeps what was collected. */
  lemma StartOpens(lines: seq<string>, x: string)
    requires MarkerOf(x) == StartMarker
    ensures Scan(lines + [x]) == Scan(lines).(open := true)
  {
    assert (lines + [x])[..|lines|] == lines;
  }

  /** Every inside line is an ordinary line, neither START nor END. */
  lemma {:induction false} InsideHasNoMarkers(lines: seq<string>)
    ensures forall i :: 0 <= i < |Inside(lines)| ==> MarkerOf(Inside(lines)[i]) == Content
    decreases |lines|
  {
    if lines != [] {
      InsideHasNoMarkers(lines[..|lines| - 1]);
    }
  }

  /** Every inside line is a line of the log, and the inside lines keep the log's order. */
  lemma {:induction false} InsideIsSubsequence(lines: seq<string>)
    ensures IsSubsequence(Inside(lines), lines)
    decreases |lines|
  {
    if lines != [] {
      var init := lines[..|lines| - 1];
      var last := lines[|lines| - 1];
      assert lines == init + [last];
      InsideIsSubsequence(init);
      SubsequenceExtend(Inside(init), init, last);
      if MarkerOf(last) == Content && OpenAfter(init) {
        assert Inside(lines) == Inside(init) + [last];
      } else {
        assert Inside(lines) == Inside(init);
      }
    }
  }

  /** `a` can be obtained from `b` by deleting lines. */
  predicate IsSubsequence(a: seq<string>, b: seq<string>)
    decreases |b|
  {
    if b == [] then a == []
    else
      (a != [] && a[|a| - 1] == b[|b| - 1] && IsSubsequence(a[..|a| - 1], b[..|b| - 1]))
      || IsSubsequence(a, b[..|b| - 1])
  }

  /** Appending a line to `b` keeps `a` a subsequence, whether or not `a` takes the line too. */
  lemma SubsequenceExtend(a: seq<string>, b: seq<string>, x: string)
    requires IsSubsequence(a, b)
    ensures IsSubsequence(a, b + [x]) && IsSubsequence(a + [x], b + [x])
  {
    assert (b + [x])[..|b|] == b;
    assert (a + [x])[..|a|] == a;
  }

  // ---- measurements ----

  /** One output row: local time, from-node, to-node, Bluetooth address, dBm. */
  datatype Measurement = Measurement(time: string, from: string, to: string, address: string, dbm: string)

  /** The node pair named by the most recent section header (`current_section`); `None` after a stop header. */
  type Header = Option<(string, string)>

  /** How the measurement reader treats a line; the patterns are tried in this order and the first match wins. */
  datatype LineKind = PairHeader(from: string, to: string) | NegativeHeader | StopHeader | Other

  function Classify(line: string): (k: LineKind)
    ensures k.PairHeader? ==> IsNodeName(k.from) && IsNodeName(k.to)
  {
    if NamedFromTo(line).Some? then
      var p := NamedFromTo(line).value;
      NamedFromToIff(line, p.0, p.1);
      PairHeader(p.0, p.1)
    else if AnonFromTo(line).Some? then
      var p := AnonFromTo(line).value;
      AnonFromToIff(line, p.0, p.1);
      PairHeader(p.0, p.1)
    else if AnonFromToShort(line).Some? then
      var p := AnonFromToShort(line).value;
      AnonFromToShortIff(line, p.0, p.1);
      PairHeader(p.0, p.1)
    else if IsNegativeFrom(line) then NegativeHeader
    else if IsNamedStop(line) || IsAnonStop(line) then StopHeader
    else Other
  }

  /** The header a reading is tagged with: a pair of node names, or no header at all. */
  predicate HeaderOk(h: Header) {
    h.None? || (IsNodeName(h.value.0) && IsNodeName(h.value.1))
  }

  /** What the measurement reader needs of one line: its kind and, if it has one, its measurement reading. */
  datatype Token = Token(kind: LineKind, reading: Option<Reading>)

  function TokenOf(line: string): (t: Token)
    ensures t.kind.PairHeader? ==> IsNodeName(t.kind.from) && IsNodeName(t.kind.to)
    ensures t.reading.Some? ==> IsReadingForm(t.reading.value) && StartsWith(line, ReadingText(t.reading.value))
  {
    var r := ParseMeasurement(line);
    if r.Some? then MeasurementIff(line, r.value); Token(Classify(line), r)
    else Token(Classify(line), r)
  }

  /** The tokens of the lines, position by position. */
  function Tokens(lines: seq<string>): (ts: seq<Token>)
    ensures |ts| == |lines|
  {
    seq(|lines|, i requires 0 <= i < |lines| => TokenOf(lines[i]))
  }

  /** The row a reading becomes under header pair `(from, to)`. */
  function Tagged(from: string, to: string, r: Reading): Measurement {
    Measurement(r.time, from, to, r.address, r.dbm)
  }

  /**
   One line of the measurement reader: a pair header replaces the header, a
   one-node header is skipped, a stop header clears it, and any other line
   that parses as a measurement is recorded when a header is set.
   */
  function Advance(h: Header, t: Token): (r: (Header, seq<Measurement>))
    ensures |r.1| <= 1
    ensures |r.1| == 1 ==>
              h.Some? && t.kind.Other? && t.reading.Some? && r.0 == h &&
              FromReading(r.1[0], t.reading.value) && r.1[0].from == h.value.0 && r.1[0].to == h.value.1
    ensures t.kind.PairHeader? ==> r.0 == Some((t.kind.from, t.kind.to))
    ensures t.kind.StopHeader? ==> r.0.None?
    ensures !t.kind.PairHeader? && !t.kind.StopHeader? ==> r.0 == h
  {
    match t.kind
    case PairHeader(a, b) => (Some((a, b)), [])
    case NegativeHeader => (h, [])
    case StopHeader => (None, [])
    case Other =>
      if h.None? || t.reading.None? then (h, [])
      else (h, [Tagged(h.value.0, h.value.1, t.reading.value)])
  }

  /** The reader run over tokens from header `h`: the final header and the rows recorded, in order. */
  function Read(h: Header, ts: seq<Token>): (r: (Header, seq<Measurement>))
    ensures |r.1| <= |ts|
  {
    if ts == [] then (h, [])
    else
      var before := Read(h, ts[..|ts| - 1]);
      var step := Advance(before.0, ts[|ts| - 1]);
      (step.0, before.1 + step.1)
  }

  /** The reader run over the lines of a log. */
  function MeasureLines(h: Header, lines: seq<string>): (r: (Header, seq<Measurement>))
    ensures |r.1| <= |lines|
  {
    Read(h, Tokens(lines))
  }

  /** The reader run over the sections in order; the header is carried from one section into the next. */
  function MeasureSections(h: Header, sections: seq<seq<string>>): (r: (Header, seq<Measurement>))
    ensures |r.1| <= |Flatten(sections)|
  {
    if sections == [] then (h, [])
    else
      var before := MeasureSections(h, sections[..|sections| - 1]);
      var step := MeasureLines(before.0, sections[|sections| - 1]);
      (step.0, before.1 + step.1)
  }

  /** `get_connection_monitoring_measurements`: the rows of all sections, starting with no header. */
  function Measurements(sections: seq<seq<string>>): (r: seq<Measurement>)
    ensures |r| <= |Flatten(sections)|
  {
    MeasureSections(None, sections).1
  }

  /** The parser's result for one log: the measurements of its monitoring sections. */
  function ParseLog(lines: seq<string>): (r: seq<Measurement>)
    ensures forall m :: m in r ==> IsWellFormed(m)
  {
    SectionsCarryHeader(None, Sections(lines));
    RowsAreWellFormed(None, Flatten(Sections(lines)));
    Measurements(Sections(lines))
  }

  /** Reading two runs of tokens one after the other is reading them joined, the header carried across. */
  lemma {:induction false} ReadAppend(h: Header, a: seq<Token>, b: seq<Token>)
    ensures Read(h, a + b) == (Read(Read(h, a).0, b).0, Read(h, a).1 + Read(Read(h, a).0, b).1)
    decreases |b|
  {
    if b == [] {
      assert a + b == a;
      assert Read(h, a).1 + [] == Read(h, a).1;
    } else {
      var b' := b[..|b| - 1];
      assert (a + b)[..|a + b| - 1] == a + b';
      assert (a + b)[|a + b| - 1] == b[|b| - 1];
      ReadAppend(h, a, b');
      var first := Read(h, a);
      var rest := Read(first.0, b');
      var step := Advance(rest.0, b[|b| - 1]);
      assert Read(first.0, b) == (step.0, rest.1 + step.1);
      assert Read(h, a + b) == (step.0, (first.1 + rest.1) + step.1);
      assert (first.1 + rest.1) + step.1 == first.1 + (rest.1 + step.1);
    }
  }

  lemma TokensAppend(a: seq<string>, b: seq<string>)
    ensures Tokens(a + b) == Tokens(a) + Tokens(b)
  {
    var joined := Tokens(a + b);
    var parts := Tokens(a) + Tokens(b);
    forall i | 0 <= i < |joined|
      ensures joined[i] == parts[i]
    {
      if i < |a| {
        assert (a + b)[i] == a[i];
        assert parts[i] == Tokens(a)[i];
      } else {
        assert (a + b)[i] == b[i - |a|];
        assert parts[i] == Tokens(b)[i - |a|];
      }
    }
  }

  /** Reading two pieces of a log one after the other is reading them joined. */
  lemma MeasureLinesAppend(h: Header, a: seq<string>, b: seq<string>)
    ensures MeasureLines(h, a + b) ==
            (MeasureLines(MeasureLines(h, a).0, b).0, MeasureLines(h, a).1 + MeasureLines(MeasureLines(h, a).0, b).1)
  {
    TokensAppend(a, b);
    ReadAppend(h, Tokens(a), Tokens(b));
  }

  /** The header state crosses section boundaries: reading the sections is reading their lines joined. */
  lemma {:induction false} SectionsCarryHeader(h: Header, sections: seq<seq<string>>)
    ensures MeasureSections(h, sections) == MeasureLines(h, Flatten(sections))
    decreases |sections|
  {
    if sections != [] {
      var init := sections[..|sections| - 1];
      SectionsCarryHeader(h, init);
      MeasureLinesAppend(h, Flatten(init), sections[|sections| - 1]);
    }
  }

  /** A log's measurements are those of its inside lines, read in order with one running header. */
  lemma ParseLogReadsInside(lines: seq<string>)
    ensures ParseLog(lines) == MeasureLines(None, Inside(lines)).1
  {
    SectionsAreInside(lines);
    SectionsCarryHeader(None, Sections(lines));
  }

  /** A line that sets or clears the header. */
  predicate ChangesHeader(line: string) {
    Classify(line).PairHeader? || Classify(line).StopHeader?
  }

  /** The readings of the measurement lines among the tokens, in order. */
  function ReadingsOf(ts: seq<Token>): seq<Reading> {
    if ts == [] then []
    else
      var last := ts[|ts| - 1];
      ReadingsOf(ts[..|ts| - 1]) + (if last.kind.Other? && last.reading.Some? then [last.reading.value] else [])
  }

  /** Every reading tagged with the pair `(from, to)`. */
  function TagAll(from: string, to: string, rs: seq<Reading>): (ms: seq<Measurement>)
    ensures |ms| == |rs|
    ensures forall i :: 0 <= i < |rs| ==> ms[i] == Tagged(from, to, rs[i])
  {
    if rs == [] then [] else TagAll(from, to, rs[..|rs| - 1]) + [Tagged(from, to, rs[|rs| - 1])]
  }

  lemma TagAllSnoc(from: string, to: string, rs: seq<Reading>, r: Reading)
    ensures TagAll(from, to, rs + [r]) == TagAll(from, to, rs) + [Tagged(from, to, r)]
  {
    assert (rs + [r])[..|rs|] == rs;
  }

  lemma {:induction false} ReadUnderPair(from: string, to: string, ts: seq<Token>)
    requires forall k :: 0 <= k < |ts| ==> !ts[k].kind.PairHeader? && !ts[k].kind.StopHeader?
    ensures Read(Some((from, to)), ts) == (Some((from, to)), TagAll(from, to, ReadingsOf(ts)))
    decreases |ts|
  {
    if ts != [] {
      var init := ts[..|ts| - 1];
      assert forall k :: 0 <= k < |init| ==> init[k] == ts[k];
      ReadUnderPair(from, to, init);
      var last := ts[|ts| - 1];
      var rs := ReadingsOf(init);
      if last.kind.Other? && last.reading.Some? {
        assert Advance(Some((from, to)), last) == (Some((from, to)), [Tagged(from, to, last.reading.value)]);
        assert ReadingsOf(ts) == rs + [last.reading.value];
        TagAllSnoc(from, to, rs, last.reading.value);
      } else {
        assert Advance(Some((from, to)), last) == (Some((from, to)), []);
        assert ReadingsOf(ts) == rs;
        assert TagAll(from, to, rs) + [] == TagAll(from, to, rs);
      }
    }
  }

  /**
   Under a pair header, and until the next line that changes the header,
   every measurement line is recorded, tagged with that pair, and nothing
   else is.
   */
  lemma UnderPairHeader(from: string, to: string, lines: seq<string>)
    requires forall k :: 0 <= k < |lines| ==> !ChangesHeader(lines[k])
    ensures MeasureLines(Some((from, to)), lines) == (Some((from, to)), TagAll(from, to, ReadingsOf(Tokens(lines))))
  {
    ReadUnderPair(from, to, Tokens(lines));
  }

  lemma {:induction false} ReadWithoutHeader(ts: seq<Token>)
    requires forall k :: 0 <= k < |ts| ==> !ts[k].kind.PairHeader?
    ensures Read(None, ts) == (None, [])
    decreases |ts|
  {
    if ts != [] {
      assert forall k :: 0 <= k < |ts| - 1 ==> ts[..|ts| - 1][k] == ts[k];
      ReadWithoutHeader(ts[..|ts| - 1]);
      assert !ts[|ts| - 1].kind.PairHeader?;
      assert Advance(None, ts[|ts| - 1]) == (None, []);
      var none: seq<Measurement> := [];
      assert none + none == none;
    }
  }

  /** With no header (at the start, or after a stop header) nothing is recorded until a pair header. */
  lemma WithoutHeader(lines: seq<string>)
    requires forall k :: 0 <= k < |lines| ==> !Classify(lines[k]).PairHeader?
    ensures MeasureLines(None, lines) == (None, [])
  {
    ReadWithoutHeader(Tokens(lines));
  }

  /** A well-formed row: timestamp, two node names, a Bluetooth address and a signed decimal. */
  predicate IsWellFormed(m: Measurement) {
    IsTimestamp(m.time) && IsNodeName(m.from) && IsNodeName(m.to) && IsBtAddress(m.address) && IsDbm(m.dbm)
  }

  /** The row carries the time, address and dBm of reading `r`. */
  predicate FromReading(m: Measurement, r: Reading) {
    m.time == r.time && m.address == r.address && m.dbm == r.dbm
  }

  /** Every token with a reading has a well-formed reading and every pair header names two nodes. */
  predicate TokensOk(ts: seq<Token>) {
    forall k :: 0 <= k < |ts| ==>
      (ts[k].kind.PairHeader? ==> IsNodeName(ts[k].kind.from) && IsNodeName(ts[k].kind.to)) &&
      (ts[k].reading.Some? ==> IsReadingForm(ts[k].reading.value))
  }

  lemma {:induction false} ReadRowsOk(h: Header, ts: seq<Token>)
    requires HeaderOk(h) && TokensOk(ts)
    ensures HeaderOk(Read(h, ts).0)
    ensures forall m :: m in Read(h, ts).1 ==>
              IsWellFormed(m) && exists i :: 0 <= i < |ts| && ts[i].reading.Some? && FromReading(m, ts[i].reading.value)
    decreases |ts|
  {
    if ts != [] {
      var init := ts[..|ts| - 1];
      ReadRowsOk(h, init);
      forall m | m in Read(h, init).1
        ensures exists i :: 0 <= i < |ts| && ts[i].reading.Some? && FromReading(m, ts[i].reading.value)
      {
        var i :| 0 <= i < |init| && init[i].reading.Some? && FromReading(m, init[i].reading.value);
        assert ts[i] == init[i];
      }
    }
  }

  /**
   Every recorded row is well formed, its time, address and dBm are the
   groups of one of the lines, and the header stays a pair of node names.
   */
  lemma RowsAreWellFormed(h: Header, lines: seq<string>)
    requires HeaderOk(h)
    ensures HeaderOk(MeasureLines(h, lines).0)
    ensures forall m :: m in MeasureLines(h, lines).1 ==>
              IsWellFormed(m) &&
              exists i :: 0 <= i < |lines| && ParseMeasurement(lines[i]).Some? &&
                          FromReading(m, ParseMeasurement(lines[i]).value)
  {
    var ts := Tokens(lines);
    assert forall k :: 0 <= k < |ts| ==> ts[k] == TokenOf(lines[k]);
    ReadRowsOk(h, ts);
  }

  /** Reading a single line is one step of the reader. */
  lemma MeasureOne(h: Header, x: string)
    ensures MeasureLines(h, [x]) == Advance(h, TokenOf(x))
  {
    assert Tokens([x])[0] == TokenOf(x);
    assert Tokens([x]) == [TokenOf(x)];
    ReadOne(h, TokenOf(x));
  }

  lemma ReadOne(h: Header, t: Token)
    ensures Read(h, [t]) == Advance(h, t)
  {
    assert [t][..0] == [];
    assert [] + Advance(h, t).1 == Advance(h, t).1;
  }

  /** A stop header silences the reader: nothing is recorded after it until the next pair header. */
  lemma StopHeaderSilences(h: Header, stop: string, rest: seq<string>)
    requires Classify(stop).StopHeader?
    requires forall k :: 0 <= k < |rest| ==> !Classify(rest[k]).PairHeader?
    ensures MeasureLines(h, [stop] + rest).1 == []
  {
    MeasureLinesAppend(h, [stop], rest);
    MeasureOne(h, stop);
    WithoutHeader(rest);
  }

  /** A one-node ("above") header is skipped: reading it changes neither the header nor the rows. */
  lemma NegativeHeaderSkipped(h: Header, pre: seq<string>, x: string, post: seq<string>)
    requires Classify(x).NegativeHeader?
    ensures MeasureLines(h, pre + [x] + post) == MeasureLines(h, pre + post)
  {
    var mid := MeasureLines(h, pre);
    MeasureLinesAppend(h, pre + [x], post);
    MeasureLinesAppend(h, pre, [x]);
    MeasureLinesAppend(h, pre, post);
    MeasureOne(mid.0, x);
    assert MeasureLines(mid.0, [x]) == (mid.0, []);
    assert mid.1 + [] == mid.1;
  }
}
