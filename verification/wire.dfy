/**
 * The two ends of the report line together: what the collector builds and
 * sends, the dashboard receives, filters and tokenises.
 */
module Wire {
  import opened Options
  import opened Text
  import opened Collector
  import opened Dashboard

  /** A piece of text that survives the trip as one token: no comma inside and
      no whitespace at either end. */
  predicate IsToken(p: string) {
    ',' !in p && IsStripped(p)
  }

  /** A space in front of a line changes none of its tokens. */
  lemma TokeniseLeadingSpace(s: string)
    ensures Tokenise(" " + s) == Tokenise(s)
  {
    var pieces := SplitOn(s, ',');
    var spaced := [[' '] + pieces[0]] + pieces[1..];
    SplitOnLeadingSpace(s);
    StripDropsLeadingSpace(' ', pieces[0]);
    assert spaced[1..] == pieces[1..];
    assert StripEach(spaced) == [Strip(pieces[0])] + StripEach(pieces[1..]);
  }

  /** A space in front of a line joins its first piece. */
  lemma SplitOnLeadingSpace(s: string)
    ensures var pieces := SplitOn(s, ',');
      SplitOn(" " + s, ',') == [[' '] + pieces[0]] + pieces[1..]
  {
    assert (" " + s)[1..] == s;
  }

  /** The text before the first comma is the first token. */
  lemma TokeniseAfterComma(a: string, s: string)
    requires ',' !in a
    ensures Tokenise(a + "," + s) == [Strip(a)] + Tokenise(s)
  {
    SplitOnAppend(a, ',', s);
    var pieces := [a] + SplitOn(s, ',');
    assert pieces[1..] == SplitOn(s, ',');
  }

  /** `[p.strip() for p in ", ".join(parts).split(',')] == parts` for tokens. */
  lemma {:induction false} TokeniseJoin(parts: seq<string>)
    requires |parts| > 0
    requires forall i :: 0 <= i < |parts| ==> IsToken(parts[i])
    ensures Tokenise(JoinWith(parts, ", ")) == parts
  {
    if |parts| == 1 {
      StrippedIsFixed(parts[0]);
      SplitOnWithoutSeparator(parts[0], ',');
    } else {
      var rest := parts[1..];
      TokeniseJoin(rest);
      TokeniseJoinStep(parts[0], JoinWith(rest, ", "), rest);
      assert parts == [parts[0]] + rest;
    }
  }

  /** A token in front of `", "` and a joined line adds itself to the tokens. */
  lemma TokeniseJoinStep(first: string, line: string, tokens: seq<string>)
    requires IsToken(first)
    requires Tokenise(line) == tokens
    ensures Tokenise(first + ", " + line) == [first] + tokens
  {
    assert first + ", " + line == first + "," + (" " + line);
    StrippedIsFixed(first);
    TokeniseAfterComma(first, " " + line);
    TokeniseLeadingSpace(line);
  }

  /** Every token of a report is a token in the sense above once the own MAC and
      every scanned SSID and MAC are. */
  lemma {:induction false} NeighbourPartsAreTokens(nets: seq<Network>, ownMac: string)
    requires forall n :: n in nets ==> IsToken(n.ssid) && IsToken(n.mac)
    ensures forall p :: p in NeighbourParts(nets, ownMac) ==> IsToken(p)
  {
    if |nets| > 0 {
      var last := nets[|nets| - 1];
      NeighbourPartsAreTokens(nets[..|nets| - 1], ownMac);
      IntToStringIsToken(last.dbm);
    }
  }

  lemma DataPartsAreTokens(own: OwnInfo, nets: seq<Network>)
    requires IsToken(own.mac)
    requires forall n :: n in nets ==> IsToken(n.ssid) && IsToken(n.mac)
    ensures forall i :: 0 <= i < |DataParts(own, nets)| ==> IsToken(DataParts(own, nets)[i])
  {
    NeighbourPartsAreTokens(nets, own.mac);
    IntToStringIsToken(own.rssi);
    assert IsToken("DATA");
  }

  /** The dashboard's tokeniser gives back exactly the parts the collector
      joined, as long as no SSID or MAC holds a comma or surrounding whitespace. */
  lemma DataLineTokens(own: OwnInfo, nets: seq<Network>)
    requires IsToken(own.mac)
    requires forall n :: n in nets ==> IsToken(n.ssid) && IsToken(n.mac)
    ensures Tokenise(DataLine(own, nets)) == DataParts(own, nets)
  {
    DataPartsAreTokens(own, nets);
    TokeniseJoin(DataParts(own, nets));
  }

  /** The collector sends its line followed by a newline. When that arrives as
      one chunk and no part holds a newline or is empty, the dashboard logs the
      line once, as `NET: <line>`, and its tokens are the collector's parts. */
  lemma ReportReachesDashboard(own: OwnInfo, nets: seq<Network>)
    requires IsToken(own.mac) && own.mac != [] && '\n' !in own.mac
    requires forall n :: n in nets ==>
      IsToken(n.ssid) && IsToken(n.mac) && n.mac != [] && '\n' !in n.ssid && '\n' !in n.mac
    ensures ReportLines(ChunkLines(DataLine(own, nets) + "\n")) == [DataLine(own, nets)]
    ensures Tagged("NET: ", ReportLines(ChunkLines(DataLine(own, nets) + "\n"))) == ["NET: " + DataLine(own, nets)]
    ensures TokenLists(ReportLines(ChunkLines(DataLine(own, nets) + "\n"))) == [DataParts(own, nets)]
  {
    var line := DataLine(own, nets);
    DataPartsHaveNoNewline(own, nets);
    JoinWithAvoids(DataParts(own, nets), ", ", '\n');
    DataLineIsStripped(own, nets);
    OneLineChunk(line);
    DataLineTokens(own, nets);
  }

  /** No token of the report holds a newline when no SSID or MAC does. */
  lemma {:induction false} NeighbourPartsHaveNoNewline(nets: seq<Network>, ownMac: string)
    requires forall n :: n in nets ==> '\n' !in n.ssid && '\n' !in n.mac
    ensures forall p :: p in NeighbourParts(nets, ownMac) ==> '\n' !in p
  {
    if |nets| > 0 {
      var last := nets[|nets| - 1];
      NeighbourPartsHaveNoNewline(nets[..|nets| - 1], ownMac);
      IntToStringIsToken(last.dbm);
    }
  }

  lemma DataPartsHaveNoNewline(own: OwnInfo, nets: seq<Network>)
    requires '\n' !in own.mac
    requires forall n :: n in nets ==> '\n' !in n.ssid && '\n' !in n.mac
    ensures forall i :: 0 <= i < |DataParts(own, nets)| ==> '\n' !in DataParts(own, nets)[i]
  {
    NeighbourPartsHaveNoNewline(nets, own.mac);
    IntToStringIsToken(own.rssi);
  }

  /** The last token of the neighbour part, when there is one, is a scanned MAC. */
  lemma {:induction false} NeighbourPartsEndInMac(nets: seq<Network>, ownMac: string)
    requires |NeighbourParts(nets, ownMac)| > 0
    ensures exists n :: n in nets && NeighbourParts(nets, ownMac)[|NeighbourParts(nets, ownMac)| - 1] == n.mac
  {
    var init := nets[..|nets| - 1];
    var last := nets[|nets| - 1];
    if IsSelf(last, ownMac) {
      NeighbourPartsEndInMac(init, ownMac);
      var n :| n in init && NeighbourParts(init, ownMac)[|NeighbourParts(init, ownMac)| - 1] == n.mac;
      assert n in nets;
    } else {
      assert last in nets;
    }
  }

  /** The last token of a report is a MAC: the own one or a neighbour's. */
  lemma LastDataPart(own: OwnInfo, nets: seq<Network>)
    ensures var ps := DataParts(own, nets);
      ps[|ps| - 1] == own.mac || exists n :: n in nets && ps[|ps| - 1] == n.mac
  {
    if |NeighbourParts(nets, own.mac)| > 0 {
      NeighbourPartsEndInMac(nets, own.mac);
    }
  }

  /** The report starts with the marker and, when every MAC is non-empty, ends
      with a MAC, so `strip()` leaves it as it is. */
  lemma DataLineIsStripped(own: OwnInfo, nets: seq<Network>)
    requires IsToken(own.mac) && own.mac != []
    requires forall n :: n in nets ==> IsToken(n.ssid) && IsToken(n.mac) && n.mac != []
    ensures IsStripped(DataLine(own, nets))
    ensures |DataLine(own, nets)| >= 4 && DataLine(own, nets)[..4] == "DATA"
  {
    var parts := DataParts(own, nets);
    var last := parts[|parts| - 1];
    LastDataPart(own, nets);
    assert IsToken(last) && last != [];
    JoinWithEnds(parts, ", ");
    var line := DataLine(own, nets);
    assert line[|line| - 1] == last[|last| - 1] by {
      assert line[|line| - |last|..][|last| - 1] == last[|last| - 1];
    }
  }

  /** A stripped, marked line followed by a newline is one chunk with one
      report line. */
  lemma OneLineChunk(line: string)
    requires IsStripped(line) && '\n' !in line
    requires |line| >= 4 && line[..4] == "DATA"
    ensures ReportLines(ChunkLines(line + "\n")) == [line]
  {
    StripDropsTrailingSpace(line, '\n');
    SplitOnWithoutSeparator(line, '\n');
    assert ChunkLines(line + "\n") == [line];
    assert OccursAt(line, "DATA", 0);
    assert [line][..0] == [];
  }

  /** A join starts with its first part and ends with its last. */
  lemma {:induction false} JoinWithEnds(parts: seq<string>, sep: string)
    requires |parts| > 0
    ensures var j := JoinWith(parts, sep);
      && |j| >= |parts[0]| && j[..|parts[0]|] == parts[0]
      && |j| >= |parts[|parts| - 1]| && j[|j| - |parts[|parts| - 1]|..] == parts[|parts| - 1]
  {
    if |parts| > 1 {
      var rest := parts[1..];
      JoinWithEnds(rest, sep);
      assert JoinWith(parts, sep) == parts[0] + (sep + JoinWith(rest, sep));
    }
  }

  /** A BSSID the collector reads off its scan, six octets of two hex digits,
      passes the dashboard's MAC check. */
  lemma CollectorMacIsMac(octets: seq<string>)
    requires |octets| == 6
    requires forall i :: 0 <= i < 6 ==> |octets[i]| == 2 && IsHexDigit(octets[i][0]) && IsHexDigit(octets[i][1])
    ensures IsMac(JoinWith(octets, ":"))
  {
    var s := JoinWith(octets, ":");
    JoinedOctetsAt(octets);
    IsMacLayout(s);
  }

  /** The characters of six joined two-character octets, by position. */
  lemma {:induction false} JoinedOctetsAt(octets: seq<string>)
    requires |octets| > 0
    requires forall i :: 0 <= i < |octets| ==> |octets[i]| == 2 && IsHexDigit(octets[i][0]) && IsHexDigit(octets[i][1])
    ensures var s := JoinWith(octets, ":");
      && |s| == 3 * |octets| - 1
      && forall i: nat :: i < |s| ==> MacCharAt(s, i)
    decreases |octets|
  {
    if |octets| > 1 {
      var rest := octets[1..];
      JoinedOctetsAt(rest);
      var s := JoinWith(octets, ":");
      var t := JoinWith(rest, ":");
      assert s == octets[0] + ":" + t;
      forall i: nat | i < |s| ensures MacCharAt(s, i) {
        if i >= 3 {
          assert s[i] == t[i - 3];
          assert MacCharAt(t, i - 3);
        }
      }
    }
  }

  /** The scan entry of an `nmcli` line for an access point with such a BSSID
      carries a MAC that the dashboard accepts. */
  lemma ScannedMacIsMac(ssid: string, octets: seq<string>, signal: nat)
    requires ssid != "" && ':' !in ssid && '\\' !in ssid
    requires |octets| == 6
    requires forall i :: 0 <= i < 6 ==> |octets[i]| == 2 && IsHexDigit(octets[i][0]) && IsHexDigit(octets[i][1])
    ensures ParseScanLine(NmcliLine(ssid, octets, signal)).Some?
    ensures IsMac(ParseScanLine(NmcliLine(ssid, octets, signal)).value.mac)
  {
    assert PlainOctets(octets) by {
      forall i | 0 <= i < 6 ensures ':' !in octets[i] && '\\' !in octets[i] {
        assert octets[i] == [octets[i][0], octets[i][1]];
      }
    }
    NmcliLineRoundTrip(ssid, octets, signal);
    CollectorMacIsMac(octets);
  }
}
