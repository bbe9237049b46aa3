/**
 The line patterns of the log parser, each computed by position and related
 to the language the pattern denotes. `\d` is read as the ASCII digits; a
 trailing `$` lets one final newline through (`Text.DollarBody`).
 */
module LogLines {
  import opened Wrappers
  import opened Text

  // ---- timestamps and the two monitor markers ----

  /** `\d{4}-\d{2}-\d{2} \d{2}:\d{2}:\d{2}`, a '#' standing for one digit. */
  const TimestampShape: string := "####-##-## ##:##:##"

  /** What follows the timestamp in every timed message. */
  const TimedSeparator: string := " - "

  predicate IsTimestamp(s: string) {
    |s| == |TimestampShape| &&
    forall i :: 0 <= i < |s| ==> if TimestampShape[i] == '#' then IsDigit(s[i]) else s[i] == TimestampShape[i]
  }

  const MonitorStartText: string := "Connected to device(s)! Begin monitoring.."
  const MonitorEndText: string := "No connected devices... Going back to automatic connection mode."

  /** `^(timestamp) - <text>$`, computed by position. */
  predicate IsTimedLine(line: string, text: string) {
    var b := DollarBody(line);
    |b| == 22 + |text| && IsTimestamp(b[..19]) && b[19..22] == TimedSeparator && b[22..] == text
  }

  /** The log line written when the connection-monitor phase begins. */
  predicate IsMonitorStart(line: string) {
    IsTimedLine(line, MonitorStartText)
  }

  /** The log line written when the connection-monitor phase gives up. */
  predicate IsMonitorEnd(line: string) {
    IsTimedLine(line, MonitorEndText)
  }

  /** The positional test accepts exactly a timestamp, the separator and the text, up to one final newline. */
  lemma TimedLineIff(line: string, text: string)
    requires |text| > 0 && text[|text| - 1] != '\n'
    ensures IsTimedLine(line, text) <==>
              exists ts :: IsTimestamp(ts) && (line == ts + TimedSeparator + text || line == ts + TimedSeparator + text + "\n")
  {
    var b := DollarBody(line);
    if IsTimedLine(line, text) {
      assert b == b[..19] + TimedSeparator + text;
      assert line == b[..19] + TimedSeparator + text || line == b[..19] + TimedSeparator + text + "\n";
    }
    forall ts | IsTimestamp(ts) && (line == ts + TimedSeparator + text || line == ts + TimedSeparator + text + "\n")
      ensures IsTimedLine(line, text)
    {
      var body := ts + TimedSeparator + text;
      if line == body {
        assert line[|line| - 1] == text[|text| - 1];
      }
      assert b == body;
      assert b[..19] == ts && b[19..22] == TimedSeparator && b[22..] == text;
    }
  }

  /** No line both begins and ends a monitoring phase. */
  lemma MarkersDisjoint(line: string)
    ensures !(IsMonitorStart(line) && IsMonitorEnd(line))
  {
  }

  // ---- node names and person names ----

  /** `[ABab]`. */
  predicate IsNodeLetter(c: char) {
    c == 'A' || c == 'B' || c == 'a' || c == 'b'
  }

  /** `[ABab]\d{1,2}`. */
  predicate IsNodeName(s: string) {
    (|s| == 2 || |s| == 3) && IsNodeLetter(s[0]) && forall i :: 1 <= i < |s| ==> IsDigit(s[i])
  }

  /** Length of the node name the pattern's greedy `\d{1,2}` takes at the start of `s`; 0 when none. */
  function NodePrefixLength(s: string): (k: nat)
    ensures k == 0 || (k <= |s| && IsNodeName(s[..k]))
  {
    if |s| >= 2 && IsNodeLetter(s[0]) && IsDigit(s[1]) then
      if |s| >= 3 && IsDigit(s[2]) then 3 else 2
    else 0
  }

  /** A node name followed by a non-digit is the only node name at the start of the text. */
  lemma NodePrefixUnique(a: string, t: string)
    requires IsNodeName(a)
    requires t == [] || !IsDigit(t[0])
    ensures NodePrefixLength(a + t) == |a|
  {
    var s := a + t;
    assert s[0] == a[0] && s[1] == a[1];
    if |a| == 3 {
      assert s[2] == a[2];
    } else if |s| >= 3 {
      assert s[2] == t[0];
    }
  }

  /** `(node)<sep>(node)` filling the whole text: the two node names, or `None`. */
  function ParseNodePair(s: string, sep: string): (r: Option<(string, string)>)
    ensures r.Some? ==> IsNodeName(r.value.0) && IsNodeName(r.value.1) && s == r.value.0 + sep + r.value.1
  {
    assert forall k | 0 <= k <= |s| - |sep| :: s == s[..k] + s[k..k + |sep|] + s[k + |sep|..];
    var k := NodePrefixLength(s);
    if k > 0 && |s| >= k + |sep| && s[k..k + |sep|] == sep && IsNodeName(s[k + |sep|..]) then
      Some((s[..k], s[k + |sep|..]))
    else None
  }

  /** The pair parser accepts exactly two node names joined by the separator. */
  lemma NodePairIff(s: string, sep: string, a: string, b: string)
    requires sep == [] || !IsDigit(sep[0])
    ensures ParseNodePair(s, sep) == Some((a, b)) <==> IsNodeName(a) && IsNodeName(b) && s == a + sep + b
  {
    if ParseNodePair(s, sep) == Some((a, b)) {
      var k := NodePrefixLength(s);
      assert s == s[..k] + s[k..k + |sep|] + s[k + |sep|..];
    }
    if IsNodeName(a) && IsNodeName(b) && s == a + sep + b {
      assert s == a + (sep + b);
      assert (sep + b)[0] == if sep == [] then b[0] else sep[0];
      NodePrefixUnique(a, sep + b);
      assert s[..|a|] == a;
      assert s[|a|..|a| + |sep|] == sep;
      assert s[|a| + |sep|..] == b;
    }
  }

  /** `[A-Za-zÅÄÖåäö]`. */
  predicate IsPersonChar(c: char) {
    ('A' <= c <= 'Z') || ('a' <= c <= 'z') ||
    c == '\U{C5}' || c == '\U{C4}' || c == '\U{D6}' || c == '\U{E5}' || c == '\U{E4}' || c == '\U{F6}'
  }

  /** `[A-Za-zÅÄÖåäö]+`. */
  predicate IsPersonName(s: string) {
    |s| >= 1 && forall i :: 0 <= i < |s| ==> IsPersonChar(s[i])
  }

  /** Length of the longest run of person-name characters at the start of `s`. */
  function PersonPrefixLength(s: string): (k: nat)
    ensures k <= |s|
    ensures forall i :: 0 <= i < k ==> IsPersonChar(s[i])
    ensures k < |s| ==> !IsPersonChar(s[k])
  {
    if s == [] || !IsPersonChar(s[0]) then 0 else 1 + PersonPrefixLength(s[1..])
  }

  /** A run of person-name characters that stops at a non-name character is the longest run. */
  lemma PersonPrefixUnique(p: string, t: string)
    requires forall i :: 0 <= i < |p| ==> IsPersonChar(p[i])
    requires t == [] || !IsPersonChar(t[0])
    ensures PersonPrefixLength(p + t) == |p|
  {
    var s := p + t;
    assert forall i :: 0 <= i < |p| ==> s[i] == p[i];
    assert |s| > |p| ==> s[|p|] == t[0];
  }

  // ---- the `//Person: ...` headers ----

  /** `//(person)[:.] ` followed by `tail`. */
  predicate IsNamedForm(b: string, person: string, mark: char, tail: string) {
    IsPersonName(person) && (mark == ':' || mark == '.') && b == "//" + person + [mark] + " " + tail
  }

  datatype NamedHeader = NamedHeader(person: string, mark: char, tail: string)

  /** The prefix `//(person)[:.] ` of a header line, and what follows it. */
  function ParseNamedHeader(b: string): Option<NamedHeader> {
    if |b| < 2 || b[..2] != "//" then None
    else
      var k := PersonPrefixLength(b[2..]);
      if k == 0 || |b| < k + 4 || !(b[k + 2] == ':' || b[k + 2] == '.') || b[k + 3] != ' ' then None
      else Some(NamedHeader(b[2..k + 2], b[k + 2], b[k + 4..]))
  }

  /** The header parser accepts exactly the named form, and its parts are unique. */
  lemma NamedHeaderIff(b: string, h: NamedHeader)
    ensures ParseNamedHeader(b) == Some(h) <==> IsNamedForm(b, h.person, h.mark, h.tail)
  {
    if ParseNamedHeader(b) == Some(h) {
      NamedHeaderSound(b, h);
    }
    if IsNamedForm(b, h.person, h.mark, h.tail) {
      NamedHeaderComplete(b, h);
    }
  }

  lemma NamedHeaderSound(b: string, h: NamedHeader)
    requires ParseNamedHeader(b) == Some(h)
    ensures IsNamedForm(b, h.person, h.mark, h.tail)
  {
    var k := PersonPrefixLength(b[2..]);
    assert b == b[..2] + b[2..k + 2] + [b[k + 2]] + [b[k + 3]] + b[k + 4..];
  }

  lemma NamedHeaderComplete(b: string, h: NamedHeader)
    requires IsNamedForm(b, h.person, h.mark, h.tail)
    ensures ParseNamedHeader(b) == Some(h)
  {
    var rest := [h.mark] + " " + h.tail;
    assert b == "//" + (h.person + rest);
    assert b[2..] == h.person + rest;
    PersonPrefixUnique(h.person, rest);
    var k := |h.person|;
    assert b[k + 2] == h.mark && b[k + 3] == ' ';
    assert b[2..k + 2] == h.person;
    assert b[k + 4..] == h.tail;
  }

  /** A named form fixes its person, mark and tail. */
  lemma NamedFormUnique(b: string, p: string, m: char, t: string)
    requires IsNamedForm(b, p, m, t)
    ensures ParseNamedHeader(b) == Some(NamedHeader(p, m, t))
  {
    NamedHeaderIff(b, NamedHeader(p, m, t));
  }

  /** `^//(person)[:.] (node) to (node)$`: the two node names. */
  function NamedFromTo(line: string): (r: Option<(string, string)>)
    ensures r.Some? ==> IsNodeName(r.value.0) && IsNodeName(r.value.1)
  {
    match ParseNamedHeader(DollarBody(line))
    case None => None
    case Some(h) => ParseNodePair(h.tail, " to ")
  }

  lemma NamedFromToIff(line: string, a: string, b: string)
    ensures NamedFromTo(line) == Some((a, b)) <==>
              IsNodeName(a) && IsNodeName(b) && exists p, m :: IsNamedForm(DollarBody(line), p, m, a + " to " + b)
  {
    var body := DollarBody(line);
    NodePairIff(a + " to " + b, " to ", a, b);
    if NamedFromTo(line) == Some((a, b)) {
      var h := ParseNamedHeader(body).value;
      NamedHeaderIff(body, h);
      NodePairIff(h.tail, " to ", a, b);
      assert IsNamedForm(body, h.person, h.mark, a + " to " + b);
    }
    if IsNodeName(a) && IsNodeName(b) && exists p, m :: IsNamedForm(body, p, m, a + " to " + b) {
      var p, m :| IsNamedForm(body, p, m, a + " to " + b);
      NamedFormUnique(body, p, m, a + " to " + b);
    }
  }

  /** `^//(node) to (node)$`: the two node names. */
  function AnonFromTo(line: string): (r: Option<(string, string)>)
    ensures r.Some? ==> IsNodeName(r.value.0) && IsNodeName(r.value.1) &&
                        DollarBody(line) == "//" + r.value.0 + " to " + r.value.1
  {
    var b := DollarBody(line);
    assert |b| >= 2 ==> b == b[..2] + b[2..];
    if |b| >= 2 && b[..2] == "//" then ParseNodePair(b[2..], " to ") else None
  }

  lemma AnonFromToIff(line: string, a: string, b: string)
    ensures AnonFromTo(line) == Some((a, b)) <==>
              IsNodeName(a) && IsNodeName(b) && DollarBody(line) == "//" + a + " to " + b
  {
    var body := DollarBody(line);
    if IsNodeName(a) && IsNodeName(b) && body == "//" + a + " to " + b {
      var tail := a + " to " + b;
      assert body == "//" + tail;
      assert body[..2] == "//" && body[2..] == tail;
      NodePairIff(tail, " to ", a, b);
    }
  }

  /** `^(node)(node)$`: the two node names written together. */
  function AnonFromToShort(line: string): (r: Option<(string, string)>)
    ensures r.Some? ==> IsNodeName(r.value.0) && IsNodeName(r.value.1) && DollarBody(line) == r.value.0 + r.value.1
  {
    assert forall x: string, y: string :: x + "" + y == x + y;
    ParseNodePair(DollarBody(line), "")
  }

  lemma AnonFromToShortIff(line: string, a: string, b: string)
    ensures AnonFromToShort(line) == Some((a, b)) <==> IsNodeName(a) && IsNodeName(b) && DollarBody(line) == a + b
  {
    NodePairIff(DollarBody(line), "", a, b);
    assert forall x: string, y: string :: x + "" + y == x + y;
  }

  /** `^//(person)[:.] (node) above$`: a header that names only one node. */
  predicate IsNegativeFrom(line: string) {
    match ParseNamedHeader(DollarBody(line))
    case None => false
    case Some(h) => |h.tail| >= 6 && h.tail[|h.tail| - 6..] == " above" && IsNodeName(h.tail[..|h.tail| - 6])
  }

  lemma NegativeFromIff(line: string)
    ensures IsNegativeFrom(line) <==>
              exists p, m, a :: IsNodeName(a) && IsNamedForm(DollarBody(line), p, m, a + " above")
  {
    var body := DollarBody(line);
    if IsNegativeFrom(line) {
      var h := ParseNamedHeader(body).value;
      NamedHeaderIff(body, h);
      var a := h.tail[..|h.tail| - 6];
      assert h.tail == a + " above";
      assert IsNamedForm(body, h.person, h.mark, a + " above");
    }
    if exists p, m, a :: IsNodeName(a) && IsNamedForm(body, p, m, a + " above") {
      var p, m, a :| IsNodeName(a) && IsNamedForm(body, p, m, a + " above");
      NamedFormUnique(body, p, m, a + " above");
      var t := a + " above";
      assert t[|t| - 6..] == " above" && t[..|t| - 6] == a;
    }
  }

  /** `^//(person)[:.] stop$`. */
  predicate IsNamedStop(line: string) {
    match ParseNamedHeader(DollarBody(line))
    case None => false
    case Some(h) => h.tail == "stop"
  }

  lemma NamedStopIff(line: string)
    ensures IsNamedStop(line) <==> exists p, m :: IsNamedForm(DollarBody(line), p, m, "stop")
  {
    var body := DollarBody(line);
    if IsNamedStop(line) {
      var h := ParseNamedHeader(body).value;
      NamedHeaderIff(body, h);
    }
    if exists p, m :: IsNamedForm(body, p, m, "stop") {
      var p, m :| IsNamedForm(body, p, m, "stop");
      NamedFormUnique(body, p, m, "stop");
    }
  }

  /** `^//stop$`. */
  predicate IsAnonStop(line: string) {
    DollarBody(line) == "//stop"
  }

  // ---- measurement lines ----

  /** `s` begins with `p`. */
  predicate StartsWith(s: string, p: string) {
    |s| >= |p| && s[..|p|] == p
  }

  /** Peeling a concatenated prefix one part at a time. */
  lemma StartsWithConcat(s: string, a: string, b: string)
    ensures StartsWith(s, a + b) <==> StartsWith(s, a) && StartsWith(s[|a|..], b)
  {
    if StartsWith(s, a + b) {
      assert s[..|a|] == (a + b)[..|a|];
      assert s[|a|..][..|b|] == s[|a|..|a| + |b|] == (a + b)[|a|..];
    }
    if StartsWith(s, a) && StartsWith(s[|a|..], b) {
      assert s[..|a| + |b|] == s[..|a|] + s[|a|..][..|b|];
    }
  }

  /** `[A-F\d]`. */
  predicate IsAddressChar(c: char) {
    ('A' <= c <= 'F') || IsDigit(c)
  }

  /** The Bluetooth address pattern: six pairs of `[A-F\d]` joined by colons. */
  predicate IsBtAddress(s: string) {
    |s| == 17 && forall i :: 0 <= i < |s| ==> if i % 3 == 2 then s[i] == ':' else IsAddressChar(s[i])
  }

  /** `-?\d+`. */
  predicate IsDbm(s: string) {
    if |s| > 0 && s[0] == '-' then |s| >= 2 && AllDigits(s[1..]) else |s| >= 1 && AllDigits(s)
  }

  /** Index of the first '(' of `s`, or `|s|` when there is none. */
  function ParenIndex(s: string): (k: nat)
    ensures k <= |s|
    ensures forall i :: 0 <= i < k ==> s[i] != '('
    ensures k < |s| ==> s[k] == '('
  {
    if s == [] || s[0] == '(' then 0 else 1 + ParenIndex(s[1..])
  }

  /** Length of the longest run of digits at the start of `s`. */
  function DigitPrefixLength(s: string): (k: nat)
    ensures k <= |s|
    ensures forall i :: 0 <= i < k ==> IsDigit(s[i])
    ensures k < |s| ==> !IsDigit(s[k])
  {
    if s == [] || !IsDigit(s[0]) then 0 else 1 + DigitPrefixLength(s[1..])
  }

  /** The four groups a measurement line yields: time, device name, address and signal strength. */
  datatype Reading = Reading(time: string, name: string, address: string, dbm: string)

  /** The text a measurement line with these groups begins with. */
  function ReadingText(r: Reading): string {
    r.time + TimedSeparator + NameText(r.name, r.address, r.dbm)
  }

  /** What follows the timestamp: ` (name) \((address)\): (dbm) dBm`. */
  function NameText(name: string, address: string, dbm: string): string {
    name + " (" + AddressText(address, dbm)
  }

  /** What follows the opening parenthesis: `(address)\): (dbm) dBm`. */
  function AddressText(address: string, dbm: string): string {
    address + "): " + (dbm + " dBm")
  }

  predicate IsDeviceLabel(name: string) {
    |name| >= 1 && forall i :: 0 <= i < |name| ==> name[i] != '('
  }

  /** Groups the measurement pattern can produce: the name is `[^(]+`. */
  predicate IsReadingForm(r: Reading) {
    IsTimestamp(r.time) && IsDeviceLabel(r.name) && IsBtAddress(r.address) && IsDbm(r.dbm)
  }

  /** `(-?\d+) dBm` at the start of `v`: the signed digit run, which must be followed by " dBm". */
  function ParseDbm(v: string): Option<string> {
    var sign := if |v| > 0 && v[0] == '-' then 1 else 0;
    var d := DigitPrefixLength(v[sign..]);
    if d == 0 || |v| < sign + d + 4 || v[sign + d..sign + d + 4] != " dBm" then None
    else Some(v[..sign + d])
  }

  /** `(address)\): (dbm) dBm` at the start of `s`. */
  function ParseAddress(s: string): Option<(string, string)> {
    if |s| < 20 || !IsBtAddress(s[..17]) || s[17..20] != "): " then None
    else
      match ParseDbm(s[20..])
      case None => None
      case Some(dbm) => Some((s[..17], dbm))
  }

  /** `([^(]+) \((address)\): (dbm) dBm` at the start of `s`: the name runs up to the first '('. */
  function ParseName(s: string): Option<(string, string, string)> {
    var k := ParenIndex(s);
    if k < 2 || k == |s| || s[k - 1] != ' ' then None
    else
      match ParseAddress(s[k + 1..])
      case None => None
      case Some(ad) => Some((s[..k - 1], ad.0, ad.1))
  }

  /**
   `^(timestamp) - ([^(]+) \((address)\): (-?\d+) dBm`, unanchored at the end:
   the four groups, or `None`.
   */
  function ParseMeasurement(line: string): (r: Option<Reading>)
    ensures r.Some? ==> IsTimestamp(r.value.time) && StartsWith(line, r.value.time + TimedSeparator)
  {
    if |line| < 22 || !IsTimestamp(line[..19]) || line[19..22] != TimedSeparator then None
    else
      match ParseName(line[22..])
      case None => None
      case Some(g) => Some(Reading(line[..19], g.0, g.1, g.2))
  }

  /** The first '(' is found where the text puts it. */
  lemma ParenIndexAt(s: string, j: nat)
    requires j < |s| && s[j] == '('
    requires forall i :: 0 <= i < j ==> s[i] != '('
    ensures ParenIndex(s) == j
  {
  }

  /** A run of digits followed by a non-digit is the longest run. */
  lemma DigitPrefixAt(s: string, j: nat)
    requires j < |s| && !IsDigit(s[j])
    requires forall i :: 0 <= i < j ==> IsDigit(s[i])
    ensures DigitPrefixLength(s) == j
  {
  }

  lemma DbmIff(v: string, dbm: string)
    ensures ParseDbm(v) == Some(dbm) <==> IsDbm(dbm) && StartsWith(v, dbm + " dBm")
  {
    if ParseDbm(v) == Some(dbm) {
      DbmSound(v, dbm);
    }
    if IsDbm(dbm) && StartsWith(v, dbm + " dBm") {
      DbmComplete(v, dbm);
    }
  }

  lemma DbmSound(v: string, dbm: string)
    requires ParseDbm(v) == Some(dbm)
    ensures IsDbm(dbm) && StartsWith(v, dbm + " dBm")
  {
    var sign := if |v| > 0 && v[0] == '-' then 1 else 0;
    var d := DigitPrefixLength(v[sign..]);
    forall i | 0 <= i < |dbm[sign..]| ensures IsDigit(dbm[sign..][i]) {
      assert dbm[sign..][i] == v[sign..][i];
    }
    if sign == 0 {
      assert dbm[0] == v[sign..][0];
    }
    assert v[..sign + d + 4] == dbm + " dBm";
  }

  lemma DbmComplete(v: string, dbm: string)
    requires IsDbm(dbm) && StartsWith(v, dbm + " dBm")
    ensures ParseDbm(v) == Some(dbm)
  {
    var sign := if |v| > 0 && v[0] == '-' then 1 else 0;
    assert v[..|dbm|] == dbm;
    assert sign == if dbm[0] == '-' then 1 else 0;
    var m := |dbm| - sign;
    assert v[sign..][m] == ' ';
    forall i | 0 <= i < m ensures IsDigit(v[sign..][i]) {
      assert v[sign..][i] == dbm[sign + i];
      if sign == 1 {
        assert dbm[1..][i] == dbm[1 + i];
      }
    }
    DigitPrefixAt(v[sign..], m);
    assert v[sign + m..sign + m + 4] == " dBm";
  }

  lemma AddressIff(s: string, address: string, dbm: string)
    ensures ParseAddress(s) == Some((address, dbm)) <==>
              IsBtAddress(address) && IsDbm(dbm) && StartsWith(s, AddressText(address, dbm))
  {
    StartsWithConcat(s, address + "): ", dbm + " dBm");
    if |s| >= 20 {
      DbmIff(s[20..], dbm);
      assert s[..20] == s[..17] + s[17..20];
    }
    if StartsWith(s, AddressText(address, dbm)) && |address| == 17 {
      StartsWithConcat(s, address, "): ");
      assert s[..17] == address;
      assert s[17..20] == "): ";
    }
  }

  lemma NameIff(s: string, name: string, address: string, dbm: string)
    ensures ParseName(s) == Some((name, address, dbm)) <==>
              IsDeviceLabel(name) && IsBtAddress(address) && IsDbm(dbm) && StartsWith(s, NameText(name, address, dbm))
  {
    if ParseName(s) == Some((name, address, dbm)) {
      NameSound(s, name, address, dbm);
    }
    if IsDeviceLabel(name) && IsBtAddress(address) && IsDbm(dbm) && StartsWith(s, NameText(name, address, dbm)) {
      NameComplete(s, name, address, dbm);
    }
  }

  lemma NameSound(s: string, name: string, address: string, dbm: string)
    requires ParseName(s) == Some((name, address, dbm))
    ensures IsDeviceLabel(name) && IsBtAddress(address) && IsDbm(dbm) && StartsWith(s, NameText(name, address, dbm))
  {
    var k := ParenIndex(s);
    AddressIff(s[k + 1..], address, dbm);
    assert s[..k + 1] == name + " (";
    StartsWithConcat(s, name + " (", AddressText(address, dbm));
  }

  lemma NameComplete(s: string, name: string, address: string, dbm: string)
    requires IsDeviceLabel(name) && IsBtAddress(address) && IsDbm(dbm) && StartsWith(s, NameText(name, address, dbm))
    ensures ParseName(s) == Some((name, address, dbm))
  {
    var n := |name|;
    StartsWithConcat(s, name + " (", AddressText(address, dbm));
    assert s[..n + 2] == name + " (";
    assert s[n] == ' ' && s[n + 1] == '(';
    assert forall i :: 0 <= i < n ==> s[i] == name[i];
    ParenIndexAt(s, n + 1);
    assert s[..n] == name;
    AddressIff(s[n + 2..], address, dbm);
  }

  /** The measurement parser accepts exactly the lines that begin with a well-formed reading, and reads its groups back. */
  lemma MeasurementIff(line: string, r: Reading)
    ensures ParseMeasurement(line) == Some(r) <==> IsReadingForm(r) && StartsWith(line, ReadingText(r))
  {
    StartsWithConcat(line, r.time + TimedSeparator, NameText(r.name, r.address, r.dbm));
    if |line| >= 22 {
      NameIff(line[22..], r.name, r.address, r.dbm);
      assert line[..22] == line[..19] + line[19..22];
    }
    if StartsWith(line, ReadingText(r)) && |r.time| == 19 {
      StartsWithConcat(line, r.time, TimedSeparator);
      assert line[..19] == r.time;
      assert line[19..22] == TimedSeparator;
    }
  }
}
