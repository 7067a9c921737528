/**
 * The collector that runs on a Raspberry Pi (rpisender.py). It turns the terse
 * `nmcli` listing of nearby access points into ranked neighbour entries, reads
 * its own signal strength from the text of `iw <if> link`, and serialises one
 * report line `DATA, rssi0, mac0, rssi1, ssid1, mac1, ...`.
 *
 * The outputs of the commands the script runs are parameters here: `Some(text)`
 * is the decoded output, `None` a command that failed or whose output did not
 * decode (both land in the script's `except` branches).
 */
module Collector {
  import opened Options
  import opened Text

  /** The script keeps at most this many neighbours per report. */
  const MaxNeighbours: nat := 12

  /** One scanned access point: the `(ssid, dbm, mac)` tuple of `scan_wifi`. */
  datatype Network = Network(ssid: string, dbm: int, mac: string)

  // ---------------------------------------------------------------------------
  // Quality (0..100) to dBm
  // ---------------------------------------------------------------------------

  /** `int(q / 2 - 100)`: the exact half of `q` minus 100, truncated toward zero
      as Python's `int()` truncates a float. */
  function QualityToDbm(q: int): (r: int)
    ensures var v := q as real / 2.0 - 100.0;
      && (v >= 0.0 ==> r as real <= v < r as real + 1.0)
      && (v < 0.0 ==> r as real - 1.0 < v <= r as real)
  {
    var twice := q - 200;
    if twice >= 0 then twice / 2 else -((-twice) / 2)
  }

  /** Below a quality of 200 the value is the negated floor of `(200 - q) / 2`. */
  lemma QualityToDbmBelow200(q: int)
    requires q <= 200
    ensures QualityToDbm(q) == -((200 - q) / 2)
  {
  }

  /** A quality score in 0..100 lands in -100..-50 dBm. */
  lemma QualityToDbmRange(q: int)
    requires 0 <= q <= 100
    ensures -100 <= QualityToDbm(q) <= -50
  {
  }

  /** A better quality score never gives a weaker signal. */
  lemma QualityToDbmMonotone(p: int, q: int)
    requires p <= q
    ensures QualityToDbm(p) <= QualityToDbm(q)
  {
  }

  // ---------------------------------------------------------------------------
  // One line of the `nmcli -t -f SSID,BSSID,SIGNAL dev wifi list` listing
  // ---------------------------------------------------------------------------

  /** The entry one listing line yields, if any. The line is split at EVERY `:`
      (field 0 is the SSID whatever it held); the MAC is fields 1..6 joined
      with `:`, backslashes deleted; field 7 must parse with `int()` and the
      SSID must not be empty. */
  function ParseScanLine(line: string): Option<Network> {
    var f := SplitOn(line, ':');
    if |f| < 8 then None
    else
      match ParseInt(f[7])
      case None => None
      case Some(q) =>
        if f[0] == "" then None
        else
          Some(Network(f[0], QualityToDbm(q), RemoveChar(JoinWith(f[1..7], ":"), '\\')))
  }

  /** A line yields an entry exactly when it splits into at least eight fields,
      field 7 parses as an integer and the SSID is not empty; the entry's SSID
      then holds no `:` and its MAC holds five `:` and no backslash. */
  lemma ParseScanLineSpec(line: string)
    ensures var f := SplitOn(line, ':');
      ParseScanLine(line).Some? <==> |f| >= 8 && ParseInt(f[7]).Some? && f[0] != ""
    ensures var r := ParseScanLine(line);
      r.Some? ==> && r.value.ssid != "" && ':' !in r.value.ssid
                  && '\\' !in r.value.mac && Count(r.value.mac, ':') == 5
  {
    var f := SplitOn(line, ':');
    if |f| >= 8 {
      JoinWithCount(f[1..7], ':');
      RemoveCharCount(JoinWith(f[1..7], ":"), '\\', ':');
    }
  }

  /** How `nmcli -t` writes one value: `:` and `\` get a backslash in front. */
  function NmcliEscape(s: string): string {
    if |s| == 0 then ""
    else (if s[0] == ':' || s[0] == '\\' then ['\\', s[0]] else [s[0]]) + NmcliEscape(s[1..])
  }

  /** The line `nmcli -t -f SSID,BSSID,SIGNAL` prints for one access point whose
      BSSID is the given six octets. */
  function NmcliLine(ssid: string, octets: seq<string>, signal: nat): string {
    NmcliEscape(ssid) + ":" + NmcliEscape(JoinWith(octets, ":")) + ":" + NatToString(signal)
  }

  /** The octets as they come out of splitting an escaped BSSID at `:`: every
      one but the last keeps the backslash that escaped the colon after it. */
  function Backslashed(octets: seq<string>): (r: seq<string>)
    ensures |r| == |octets|
  {
    if |octets| <= 1 then octets else [octets[0] + "\\"] + Backslashed(octets[1..])
  }

  lemma {:induction false} NmcliEscapeAppend(a: string, b: string)
    ensures NmcliEscape(a + b) == NmcliEscape(a) + NmcliEscape(b)
  {
    if |a| > 0 {
      assert (a + b)[1..] == a[1..] + b;
      NmcliEscapeAppend(a[1..], b);
    } else {
      assert a + b == b;
    }
  }

  lemma {:induction false} NmcliEscapePlain(s: string)
    requires ':' !in s && '\\' !in s
    ensures NmcliEscape(s) == s
  {
    if |s| > 0 {
      NmcliEscapePlain(s[1..]);
      assert [s[0]] + s[1..] == s;
    }
  }

  predicate PlainOctets(octets: seq<string>) {
    forall i :: 0 <= i < |octets| ==> ':' !in octets[i] && '\\' !in octets[i]
  }

  lemma {:induction false} NmcliEscapeJoin(octets: seq<string>)
    requires |octets| > 0 && PlainOctets(octets)
    ensures NmcliEscape(JoinWith(octets, ":")) == JoinWith(Backslashed(octets), ":")
  {
    if |octets| == 1 {
      NmcliEscapePlain(octets[0]);
    } else {
      var rest := octets[1..];
      assert PlainOctets(rest);
      NmcliEscapeJoin(rest);
      var j := JoinWith(rest, ":");
      assert JoinWith(octets, ":") == octets[0] + (":" + j);
      NmcliEscapeAppend(octets[0], ":" + j);
      NmcliEscapeAppend(":", j);
      NmcliEscapePlain(octets[0]);
      assert NmcliEscape(":") == "\\:";
      var b := Backslashed(octets);
      assert b[0] == octets[0] + "\\" && b[1..] == Backslashed(rest);
      assert JoinWith(b, ":") == b[0] + ":" + JoinWith(b[1..], ":");
    }
  }

  lemma {:induction false} UnescapeBackslashed(octets: seq<string>)
    requires |octets| > 0 && PlainOctets(octets)
    ensures RemoveChar(JoinWith(Backslashed(octets), ":"), '\\') == JoinWith(octets, ":")
  {
    var o := octets[0];
    if |octets| == 1 {
      RemoveCharAbsent(o, '\\');
    } else {
      var rest := octets[1..];
      var b := Backslashed(rest);
      assert PlainOctets(rest);
      UnescapeBackslashed(rest);
      assert Backslashed(octets)[1..] == b;
      UnescapeOne(o, JoinWith(b, ":"));
    }
  }

  /** Removing backslashes from `o\:tail` with a plain `o`. */
  lemma UnescapeOne(o: string, tail: string)
    requires '\\' !in o
    ensures RemoveChar(o + "\\" + ":" + tail, '\\') == o + ":" + RemoveChar(tail, '\\')
  {
    var escaped := o + "\\";
    var head := escaped + ":";
    RemoveCharAbsent(o, '\\');
    RemoveCharAbsent(":", '\\');
    assert RemoveChar("\\", '\\') == "" by {
      assert "\\"[1..] == "";
    }
    RemoveCharAppend(o, "\\", '\\');
    assert RemoveChar(escaped, '\\') == o;
    RemoveCharAppend(escaped, ":", '\\');
    assert RemoveChar(head, '\\') == o + ":";
    RemoveCharAppend(head, tail, '\\');
  }

  /** A listing line for an access point with a plain, non-empty SSID gives
      back exactly that SSID, the BSSID with its escapes removed, and the dBm
      value of its signal quality. */
  lemma NmcliLineRoundTrip(ssid: string, octets: seq<string>, signal: nat)
    requires ssid != "" && ':' !in ssid && '\\' !in ssid
    requires |octets| == 6 && PlainOctets(octets)
    ensures ParseScanLine(NmcliLine(ssid, octets, signal))
         == Some(Network(ssid, QualityToDbm(signal), JoinWith(octets, ":")))
  {
    var num := NatToString(signal);
    var fields := [ssid] + Backslashed(octets) + [num];
    NmcliEscapePlain(ssid);
    NmcliEscapeJoin(octets);
    JoinWithAppend([ssid], Backslashed(octets), ":");
    JoinWithAppend([ssid] + Backslashed(octets), [num], ":");
    assert NmcliLine(ssid, octets, signal) == JoinWith(fields, [':']);
    IntToStringIsToken(signal);
    assert forall i :: 0 <= i < |fields| ==> ':' !in fields[i] by {
      BackslashedPlain(octets);
    }
    SplitOnJoin(fields, ':');
    assert fields[1..7] == Backslashed(octets);
    ParseNatToString(signal);
    UnescapeBackslashed(octets);
  }

  lemma {:induction false} BackslashedPlain(octets: seq<string>)
    requires PlainOctets(octets)
    ensures forall i :: 0 <= i < |octets| ==> ':' !in Backslashed(octets)[i]
  {
    if |octets| > 1 {
      BackslashedPlain(octets[1..]);
      forall i | 0 <= i < |octets| ensures ':' !in Backslashed(octets)[i] {
        if i > 0 {
          assert Backslashed(octets)[i] == Backslashed(octets[1..])[i - 1];
        }
      }
    }
  }

  // ---------------------------------------------------------------------------
  // scan_wifi: parse, stable sort by strength, keep the strongest twelve
  // ---------------------------------------------------------------------------

  /** The lines `scan_wifi` walks through: `output.strip().split('\n')`. */
  function ScanLines(output: string): seq<string> {
    SplitOn(Strip(output), '\n')
  }

  /** The list `scan_wifi` builds by appending, in listing order. */
  function ParseScanLines(lines: seq<string>): (r: seq<Network>)
    ensures |r| <= |lines|
  {
    if |lines| == 0 then []
    else
      var init := ParseScanLines(lines[..|lines| - 1]);
      match ParseScanLine(lines[|lines| - 1])
      case Some(n) => init + [n]
      case None => init
  }

  predicate SortedByStrength(s: seq<Network>) {
    forall i, j :: 0 <= i < j < |s| ==> s[i].dbm >= s[j].dbm
  }

  /** The entries of `s` whose strength is `d`, in their order in `s`. */
  function WithStrength(s: seq<Network>, d: int): seq<Network> {
    if |s| == 0 then []
    else (if s[0].dbm == d then [s[0]] else []) + WithStrength(s[1..], d)
  }

  /** Insert `x` after every entry at least as strong (so after its equals). */
  function InsertByStrength(s: seq<Network>, x: Network): (r: seq<Network>)
    ensures |r| == |s| + 1
    ensures multiset(r) == multiset(s) + multiset{x}
  {
    if |s| == 0 then [x]
    else if s[0].dbm >= x.dbm then
      assert s == [s[0]] + s[1..];
      [s[0]] + InsertByStrength(s[1..], x)
    else [x] + s
  }

  lemma {:induction false} InsertKeepsSorted(s: seq<Network>, x: Network)
    requires SortedByStrength(s)
    ensures SortedByStrength(InsertByStrength(s, x))
  {
    if |s| > 0 && s[0].dbm >= x.dbm {
      var tail := s[1..];
      var r := InsertByStrength(tail, x);
      InsertKeepsSorted(tail, x);
      forall i | 0 <= i < |r| ensures s[0].dbm >= r[i].dbm {
        assert r[i] in multiset(r);
        if r[i] != x {
          assert r[i] in multiset(tail);
          var k :| 0 <= k < |tail| && tail[k] == r[i];
          assert tail[k] == s[k + 1];
        }
      }
      SortedCons(s[0], r);
    }
  }

  /** An entry at least as strong as every entry of a sorted list can go in front. */
  lemma SortedCons(a: Network, r: seq<Network>)
    requires SortedByStrength(r)
    requires forall i :: 0 <= i < |r| ==> a.dbm >= r[i].dbm
    ensures SortedByStrength([a] + r)
  {
    var s := [a] + r;
    forall i, j | 0 <= i < j < |s| ensures s[i].dbm >= s[j].dbm {
      assert s[j] == r[j - 1];
      if i > 0 {
        assert s[i] == r[i - 1];
      }
    }
  }

  /** `networks.sort(key=lambda x: x[1], reverse=True)`: a stable sort by
      strength, strongest first (insertion in listing order). */
  function SortByStrength(s: seq<Network>): (r: seq<Network>)
    ensures |r| == |s|
    ensures SortedByStrength(r)
    ensures multiset(r) == multiset(s)
  {
    if |s| == 0 then []
    else
      var last := s[|s| - 1];
      assert s == s[..|s| - 1] + [last];
      var init := SortByStrength(s[..|s| - 1]);
      InsertKeepsSorted(init, last);
      InsertByStrength(init, last)
  }

  lemma {:induction false} WithStrengthAppend(a: seq<Network>, b: seq<Network>, d: int)
    ensures WithStrength(a + b, d) == WithStrength(a, d) + WithStrength(b, d)
  {
    if |a| > 0 {
      assert (a + b)[1..] == a[1..] + b;
      WithStrengthAppend(a[1..], b, d);
    } else {
      assert a + b == b;
    }
  }

  lemma {:induction false} WithStrengthNone(s: seq<Network>, d: int)
    requires forall i :: 0 <= i < |s| ==> s[i].dbm != d
    ensures WithStrength(s, d) == []
  {
    if |s| > 0 {
      WithStrengthNone(s[1..], d);
    }
  }

  lemma {:induction false} InsertWithStrength(s: seq<Network>, x: Network, d: int)
    requires SortedByStrength(s)
    ensures WithStrength(InsertByStrength(s, x), d)
         == WithStrength(s, d) + (if x.dbm == d then [x] else [])
  {
    if |s| == 0 {
    } else if s[0].dbm >= x.dbm {
      var tail := InsertByStrength(s[1..], x);
      assert InsertByStrength(s, x) == [s[0]] + tail;
      WithStrengthCons(s[0], tail, d);
      SortedTail(s);
      InsertWithStrength(s[1..], x, d);
    } else {
      WithStrengthInFront(s, x, d);
    }
  }

  lemma WithStrengthCons(y: Network, t: seq<Network>, d: int)
    ensures WithStrength([y] + t, d) == (if y.dbm == d then [y] else []) + WithStrength(t, d)
  {
    assert ([y] + t)[1..] == t;
  }

  lemma SortedTail(s: seq<Network>)
    requires |s| > 0 && SortedByStrength(s)
    ensures SortedByStrength(s[1..])
  {
    forall i, j | 0 <= i < j < |s| - 1 ensures s[1..][i].dbm >= s[1..][j].dbm {
      assert s[1..][i] == s[i + 1] && s[1..][j] == s[j + 1];
    }
  }

  /** An entry stronger than the whole sorted list goes in front of it. */
  lemma WithStrengthInFront(s: seq<Network>, x: Network, d: int)
    requires |s| > 0 && SortedByStrength(s) && s[0].dbm < x.dbm
    ensures WithStrength([x] + s, d) == WithStrength(s, d) + (if x.dbm == d then [x] else [])
  {
    assert ([x] + s)[1..] == s;
    if x.dbm == d {
      assert forall i :: 0 <= i < |s| ==> s[i].dbm <= s[0].dbm;
      WithStrengthNone(s, d);
    }
  }

  /** The sort is stable: for every strength, the entries of that strength keep
      their relative order. */
  lemma {:induction false} SortIsStable(s: seq<Network>, d: int)
    ensures WithStrength(SortByStrength(s), d) == WithStrength(s, d)
  {
    if |s| > 0 {
      var init := s[..|s| - 1];
      var last := s[|s| - 1];
      assert s == init + [last];
      WithStrengthAppend(init, [last], d);
      var sortedInit := SortByStrength(init);
      assert SortByStrength(s) == InsertByStrength(sortedInit, last);
      SortIsStable(init, d);
      InsertWithStrength(sortedInit, last, d);
      assert WithStrength([last], d) == (if last.dbm == d then [last] else []);
    }
  }

  /** `networks[:n]`. */
  function Take(s: seq<Network>, n: nat): (r: seq<Network>)
    ensures |r| == if |s| <= n then |s| else n
    ensures r == s[..|r|]
  {
    if |s| <= n then s else s[..n]
  }

  /** What `scan_wifi` returns for the output of the `nmcli` command
      (`None`: the command failed, and the script returns an empty list). */
  function ScanResult(output: Option<string>): seq<Network> {
    match output
    case None => []
    case Some(text) => Take(SortByStrength(ParseScanLines(ScanLines(text))), MaxNeighbours)
  }

  /** Keeping a prefix of a sorted permutation of `s` keeps a sub-multiset of
      `s`, and whatever is left out is no stronger than anything kept. */
  lemma SortedPrefixKeepsStrongest(s: seq<Network>, sorted: seq<Network>, r: seq<Network>)
    requires SortedByStrength(sorted) && multiset(sorted) == multiset(s)
    requires |r| <= |sorted| && r == sorted[..|r|]
    ensures SortedByStrength(r)
    ensures multiset(r) <= multiset(s)
    ensures forall n :: n in multiset(s) - multiset(r) ==>
              forall i :: 0 <= i < |r| ==> r[i].dbm >= n.dbm
  {
    var rest := sorted[|r|..];
    assert sorted == r + rest;
    assert multiset(s) == multiset(r) + multiset(rest);
    forall n | n in multiset(s) - multiset(r)
      ensures forall i :: 0 <= i < |r| ==> r[i].dbm >= n.dbm
    {
      assert n in multiset(rest);
      var k :| 0 <= k < |rest| && rest[k] == n;
      forall i | 0 <= i < |r| ensures r[i].dbm >= n.dbm {
        assert r[i] == sorted[i] && n == sorted[|r| + k];
      }
    }
  }

  /** The scan result keeps twelve entries, or all of them when there are
      fewer; it is strongest first, a prefix of the full sorted list and a
      sub-multiset of the parsed entries; every parsed entry it leaves out is
      no stronger than any entry it keeps. */
  lemma ScanResultProperties(text: string)
    ensures var parsed := ParseScanLines(ScanLines(text));
      var r := ScanResult(Some(text));
      && |r| == (if |parsed| <= MaxNeighbours then |parsed| else MaxNeighbours)
      && SortedByStrength(r)
      && r == SortByStrength(parsed)[..|r|]
      && multiset(r) <= multiset(parsed)
      && (forall n :: n in multiset(parsed) - multiset(r) ==>
            forall i :: 0 <= i < |r| ==> r[i].dbm >= n.dbm)
  {
    var parsed := ParseScanLines(ScanLines(text));
    var sorted := SortByStrength(parsed);
    var r := Take(sorted, MaxNeighbours);
    assert ScanResult(Some(text)) == r;
    SortedPrefixKeepsStrongest(parsed, sorted, r);
  }

  /** `scan_wifi`, as the script runs it: walk the lines appending each entry
      they yield, sort that list by strength, return its first twelve. */
  method ScanWifi(output: Option<string>) returns (top: seq<Network>)
    ensures top == ScanResult(output)
  {
    if output.None? {
      return [];
    }
    var lines := ScanLines(output.value);
    var networks: seq<Network> := [];
    for i := 0 to |lines|
      invariant networks == ParseScanLines(lines[..i])
    {
      assert lines[..i + 1][..i] == lines[..i];
      var entry := ParseScanLine(lines[i]);
      if entry.Some? {
        networks := networks + [entry.value];
      }
    }
    assert lines[..|lines|] == lines;
    networks := SortByStrength(networks);
    top := Take(networks, MaxNeighbours);
  }

  // ---------------------------------------------------------------------------
  // Own signal strength: re.search(r'signal: (-\d+) dBm', link)
  // ---------------------------------------------------------------------------

  /** Length of the run of ASCII digits that starts at `j`. */
  function DigitRun(s: string, j: nat): (n: nat)
    requires j <= |s|
    ensures j + n <= |s|
    ensures AllDigits(s[j..j + n])
    ensures j + n == |s| || !IsDigit(s[j + n])
    decreases |s| - j
  {
    if j < |s| && IsDigit(s[j]) then
      var n := DigitRun(s, j + 1);
      AllDigitsCons(s, j, n);
      1 + n
    else 0
  }

  lemma AllDigitsCons(s: string, j: nat, n: nat)
    requires j + 1 + n <= |s| && IsDigit(s[j]) && AllDigits(s[j + 1..j + 1 + n])
    ensures AllDigits(s[j..j + 1 + n])
  {
    var whole, tail := s[j..j + 1 + n], s[j + 1..j + 1 + n];
    forall k | 0 <= k < n + 1 ensures IsDigit(whole[k]) {
      if k > 0 {
        assert whole[k] == tail[k - 1];
      }
    }
  }

  lemma AllDigitsTail(s: string, j: nat, n: nat)
    requires j + 1 + n <= |s| && AllDigits(s[j..j + 1 + n])
    ensures IsDigit(s[j]) && AllDigits(s[j + 1..j + 1 + n])
  {
    var whole, tail := s[j..j + 1 + n], s[j + 1..j + 1 + n];
    assert s[j] == whole[0];
    forall k | 0 <= k < n ensures IsDigit(tail[k]) {
      assert tail[k] == whole[k + 1];
    }
  }

  /** The pattern matches at `i` the way the regex engine reads it: the literal
      `signal: -`, then one or more digits, then ` dBm`. Since ` ` is not a
      digit, the greedy digit run is the only one that can be followed by ` dBm`. */
  predicate MatchAt(s: string, i: nat) {
    && i + |"signal: -"| <= |s|
    && s[i..i + |"signal: -"|] == "signal: -"
    && var n := DigitRun(s, i + |"signal: -"|);
       var e := i + |"signal: -"| + n;
       n > 0 && e + |" dBm"| <= |s| && s[e..e + |" dBm"|] == " dBm"
  }

  /** `n` digits starting at `p`, followed by ` dBm`. */
  predicate DigitsThenUnit(s: string, p: nat, n: nat) {
    p + n + |" dBm"| <= |s| && AllDigits(s[p..p + n]) && s[p + n..p + n + |" dBm"|] == " dBm"
  }

  /** The regular expression's own reading: some non-empty digit count works. */
  ghost predicate RegexMatchAt(s: string, i: nat) {
    && i + |"signal: -"| <= |s|
    && s[i..i + |"signal: -"|] == "signal: -"
    && SomeDigitsThenUnit(s, i + |"signal: -"|)
  }

  ghost predicate SomeDigitsThenUnit(s: string, p: nat) {
    exists n: nat :: n > 0 && DigitsThenUnit(s, p, n)
  }

  lemma {:induction false} DigitRunExact(s: string, j: nat, n: nat)
    requires j + n <= |s| && AllDigits(s[j..j + n])
    requires j + n == |s| || !IsDigit(s[j + n])
    ensures DigitRun(s, j) == n
    decreases n
  {
    if n > 0 {
      AllDigitsTail(s, j, n - 1);
      DigitRunExact(s, j + 1, n - 1);
    }
  }

  /** The greedy computation finds a match exactly where the regex does. */
  lemma MatchAtIsRegexMatch(s: string, i: nat)
    ensures MatchAt(s, i) <==> RegexMatchAt(s, i)
  {
    var p := i + |"signal: -"|;
    if MatchAt(s, i) {
      assert DigitsThenUnit(s, p, DigitRun(s, p));
    }
    if RegexMatchAt(s, i) {
      var n: nat :| n > 0 && DigitsThenUnit(s, p, n);
      assert s[p + n..p + n + |" dBm"|][0] == ' ';
      DigitRunExact(s, p, n);
    }
  }

  /** `re.search`: the leftmost position at or after `from` where the pattern matches. */
  function FirstMatch(s: string, from: nat): (r: Option<nat>)
    ensures r.Some? ==> (from <= r.value && MatchAt(s, r.value)
                         && forall j :: from <= j < r.value ==> !MatchAt(s, j))
    ensures r.None? ==> forall j :: from <= j ==> !MatchAt(s, j)
    decreases |s| - from
  {
    if from + |"signal: -"| > |s| then None
    else if MatchAt(s, from) then Some(from)
    else FirstMatch(s, from + 1)
  }

  /** The digits of the match at `i`. */
  function MatchDigits(s: string, i: nat): (d: string)
    requires MatchAt(s, i)
    ensures |d| > 0 && AllDigits(d)
  {
    s[i + |"signal: -"|..i + |"signal: -"| + DigitRun(s, i + |"signal: -"|)]
  }

  /** The own RSSI: the integer of the first `signal: -<digits> dBm` in the
      link text, or -50 when the text has none or the command failed. */
  function OwnRssi(link: Option<string>): (r: int)
    ensures link.None? ==> r == -50
    ensures link.Some? && (forall i: nat :: !MatchAt(link.value, i)) ==> r == -50
    ensures forall k: nat ::
              (link.Some? && MatchAt(link.value, k) && forall j: nat :: j < k ==> !MatchAt(link.value, j))
              ==> r == 0 - DigitsValue(MatchDigits(link.value, k))
  {
    match link
    case None => -50
    case Some(text) =>
      match FirstMatch(text, 0)
      case None => -50
      case Some(k) => 0 - DigitsValue(MatchDigits(text, k))
  }

  /** The text of the regex group `(-\d+)` of the match at `i`. */
  function MatchGroup(s: string, i: nat): (g: string)
    requires MatchAt(s, i)
    ensures |g| > 1 && g[0] == '-' && g[1..] == MatchDigits(s, i)
  {
    var p := i + |"signal: -"|;
    var g := s[p - 1..p + DigitRun(s, p)];
    assert s[i..p][p - 1 - i] == '-';
    assert g[1..] == s[p..p + DigitRun(s, p)];
    g
  }

  /** The own RSSI is `int()` of the group matched first. */
  lemma OwnRssiIsIntOfGroup(text: string, k: nat)
    requires MatchAt(text, k) && forall j: nat :: j < k ==> !MatchAt(text, j)
    ensures ParseInt(MatchGroup(text, k)) == Some(OwnRssi(Some(text)))
  {
    MatchGroupParses(text, k);
    assert OwnRssi(Some(text)) == 0 - DigitsValue(MatchDigits(text, k));
  }

  /** The group of a match is a minus sign and digits, which `int()` reads as
      the negated value of the digits. */
  lemma MatchGroupParses(text: string, k: nat)
    requires MatchAt(text, k)
    ensures ParseInt(MatchGroup(text, k)) == Some(0 - DigitsValue(MatchDigits(text, k)))
  {
    var g := MatchGroup(text, k);
    ParseNegativeDigits(g);
  }

  // ---------------------------------------------------------------------------
  // get_own_info
  // ---------------------------------------------------------------------------

  datatype OwnInfo = OwnInfo(rssi: int, mac: string, ssid: string)

  const FallbackMac := "00:00:00:00:00:00"
  const FallbackSsid := "UNKNOWN_RPI"

  /** `get_own_info` from the outputs of `cat .../address`, `iwgetid -r` and
      `iw <if> link`: stripped MAC and SSID with their fallbacks, and the RSSI. */
  function GetOwnInfo(address: Option<string>, iwgetid: Option<string>, link: Option<string>)
    : (r: OwnInfo)
    ensures IsStripped(r.mac) && IsStripped(r.ssid)
    ensures address.None? ==> r.mac == FallbackMac
    ensures iwgetid.None? ==> r.ssid == FallbackSsid
    ensures r.rssi <= 0
  {
    OwnInfo(OwnRssi(link),
            if address.Some? then Strip(address.value) else FallbackMac,
            if iwgetid.Some? then Strip(iwgetid.value) else FallbackSsid)
  }

  // ---------------------------------------------------------------------------
  // build_data_line
  // ---------------------------------------------------------------------------

  /** A scanned entry is the collector itself when the MACs agree ignoring case. */
  predicate IsSelf(n: Network, ownMac: string) {
    Lower(n.mac) == Lower(ownMac)
  }

  /** The neighbours a report carries, in scan order. */
  function Neighbours(nets: seq<Network>, ownMac: string): (r: seq<Network>)
    ensures |r| <= |nets|
  {
    if |nets| == 0 then []
    else
      var init := Neighbours(nets[..|nets| - 1], ownMac);
      var last := nets[|nets| - 1];
      if IsSelf(last, ownMac) then init else init + [last]
  }

  /** The neighbours are exactly the scanned entries that are not the
      collector itself. */
  lemma {:induction false} NeighboursMembers(nets: seq<Network>, ownMac: string)
    ensures forall n :: n in Neighbours(nets, ownMac) <==> n in nets && !IsSelf(n, ownMac)
  {
    if |nets| > 0 {
      NeighboursMembers(nets[..|nets| - 1], ownMac);
      assert nets == nets[..|nets| - 1] + [nets[|nets| - 1]];
    }
  }

  /** The three tokens of one neighbour: rssi, ssid, mac. */
  function Fields(n: Network): seq<string> {
    [IntToString(n.dbm), n.ssid, n.mac]
  }

  /** The tokens the loop of `build_data_line` appends. */
  function NeighbourParts(nets: seq<Network>, ownMac: string): seq<string> {
    if |nets| == 0 then []
    else
      var last := nets[|nets| - 1];
      NeighbourParts(nets[..|nets| - 1], ownMac) + (if IsSelf(last, ownMac) then [] else Fields(last))
  }

  /** The tokens of a list of neighbours, three per neighbour, in order. */
  function FieldsOf(ks: seq<Network>): (r: seq<string>)
    ensures |r| == 3 * |ks|
  {
    if |ks| == 0 then [] else FieldsOf(ks[..|ks| - 1]) + Fields(ks[|ks| - 1])
  }

  /** Neighbour `j` sits at tokens `3j`, `3j + 1` and `3j + 2`. */
  lemma {:induction false} FieldsOfAt(ks: seq<Network>)
    ensures forall j :: 0 <= j < |ks| ==> FieldsOf(ks)[3 * j..3 * j + 3] == Fields(ks[j])
  {
    if |ks| > 0 {
      var init := ks[..|ks| - 1];
      FieldsOfAt(init);
      forall j | 0 <= j < |ks| ensures FieldsOf(ks)[3 * j..3 * j + 3] == Fields(ks[j]) {
        if j < |init| {
          assert FieldsOf(ks)[3 * j..3 * j + 3] == FieldsOf(init)[3 * j..3 * j + 3];
        }
      }
    }
  }

  /** The loop appends the tokens of exactly the neighbours, in scan order. */
  lemma {:induction false} NeighbourPartsLayout(nets: seq<Network>, ownMac: string)
    ensures NeighbourParts(nets, ownMac) == FieldsOf(Neighbours(nets, ownMac))
    ensures |NeighbourParts(nets, ownMac)| == 3 * |Neighbours(nets, ownMac)|
  {
    if |nets| > 0 {
      var init := nets[..|nets| - 1];
      var last := nets[|nets| - 1];
      NeighbourPartsLayout(init, ownMac);
      if !IsSelf(last, ownMac) {
        var ks0 := Neighbours(init, ownMac);
        assert (ks0 + [last])[..|ks0|] == ks0;
      }
    }
  }

  /** The tokens of the report: marker, own RSSI, own MAC, then the neighbours. */
  function DataParts(own: OwnInfo, nets: seq<Network>): seq<string> {
    ["DATA", IntToString(own.rssi), own.mac] + NeighbourParts(nets, own.mac)
  }

  /** The report line: the tokens joined by `", "`. */
  function DataLine(own: OwnInfo, nets: seq<Network>): string {
    JoinWith(DataParts(own, nets), ", ")
  }

  /** The report starts with `DATA`, the own RSSI and the own MAC, and carries
      three tokens for each of at most twelve neighbours. */
  lemma DataPartsShape(own: OwnInfo, text: Option<string>)
    ensures var ps := DataParts(own, ScanResult(text));
      var k := |Neighbours(ScanResult(text), own.mac)|;
      && ps[..3] == ["DATA", IntToString(own.rssi), own.mac]
      && |ps| == 3 + 3 * k && k <= MaxNeighbours
  {
    NeighbourPartsLayout(ScanResult(text), own.mac);
    if text.Some? {
      ScanResultProperties(text.value);
    }
  }

  /** The own SSID takes no part in the report. */
  lemma OwnSsidNotReported(own: OwnInfo, ssid: string, nets: seq<Network>)
    ensures DataLine(own.(ssid := ssid), nets) == DataLine(own, nets)
  {
  }

  /** The body of `build_data_line` after the own info and the scan are in:
      start from the marker, own RSSI and own MAC, append three tokens per
      scanned entry (skipping the collector's own MAC) and join with `", "`. */
  method SerialiseReport(own: OwnInfo, networks: seq<Network>) returns (line: string)
    ensures line == DataLine(own, networks)
  {
    var parts := ["DATA", IntToString(own.rssi), own.mac];
    for i := 0 to |networks|
      invariant parts == ["DATA", IntToString(own.rssi), own.mac] + NeighbourParts(networks[..i], own.mac)
    {
      var n := networks[i];
      assert networks[..i + 1][..i] == networks[..i];
      if Lower(n.mac) == Lower(own.mac) {
        continue;
      }
      parts := parts + [IntToString(n.dbm), n.ssid, n.mac];
    }
    assert networks[..|networks|] == networks;
    line := JoinWith(parts, ", ");
  }

  /** `build_data_line`: the own info and the scan, serialised. */
  method BuildDataLine(address: Option<string>, iwgetid: Option<string>,
                       link: Option<string>, scan: Option<string>)
    returns (line: string)
    ensures line == DataLine(GetOwnInfo(address, iwgetid, link), ScanResult(scan))
  {
    var own := GetOwnInfo(address, iwgetid, link);
    var networks := ScanWifi(scan);
    line := SerialiseReport(own, networks);
  }
}
