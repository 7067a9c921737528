/**
 * The dashboard (local_radar.py): the pieces of its state and its text
 * handling that the shown script spells out. It checks MAC addresses with a
 * strict pattern, keeps only report lines carrying the `DATA` marker, logs
 * them with their transport, splits them into comma-separated tokens, cycles
 * through four scenes and notices a scene change once per animation tick,
 * and loads and saves node positions and custom node names.
 *
 * File, serial and socket access are parameters: a store is the parsed JSON
 * record (or `None` when there is no file or it cannot be parsed), a received
 * chunk is the decoded text, a serial line is the decoded line or `None`.
 */
module Dashboard {
  import opened Options
  import opened Text

  /** The highest node slot, and the number of slots (`MAX_NODES + 1`). */
  const MaxNodes: nat := 24
  const NodeCount: nat := MaxNodes + 1

  /** The number of scenes the toggle button cycles through. */
  const SceneCount: nat := 4

  // ---------------------------------------------------------------------------
  // MAC_REGEX: ^([0-9A-Fa-f]{2}[:-]){5}([0-9A-Fa-f]{2})$
  // ---------------------------------------------------------------------------

  predicate IsHexDigit(c: char) {
    ('0' <= c <= '9') || ('a' <= c <= 'f') || ('A' <= c <= 'F')
  }

  predicate IsMacSeparator(c: char) {
    c == ':' || c == '-'
  }

  /** The pattern read as the regex engine reads it: `n` more groups of two hex
      digits and a separator, then two hex digits and the end of the text (`$`
      also matches before one final newline). */
  predicate MatchesGroups(s: string, n: nat)
    decreases n
  {
    if n == 0 then
      (|s| == 2 || (|s| == 3 && s[2] == '\n')) && IsHexDigit(s[0]) && IsHexDigit(s[1])
    else
      |s| >= 3 && IsHexDigit(s[0]) && IsHexDigit(s[1]) && IsMacSeparator(s[2])
      && MatchesGroups(s[3..], n - 1)
  }

  /** `MAC_REGEX.match(s)` succeeds. */
  predicate IsMac(s: string) {
    MatchesGroups(s, 5)
  }

  /** What a position of a MAC holds: a separator at every third place, a hex
      digit elsewhere. */
  predicate MacCharAt(s: string, i: nat)
    requires i < |s|
  {
    if i % 3 == 2 then IsMacSeparator(s[i]) else IsHexDigit(s[i])
  }

  /** The positional reading of `MatchesGroups`. */
  lemma {:induction false} MatchesGroupsLayout(s: string, n: nat)
    ensures MatchesGroups(s, n) <==>
      (&& (|s| == 3 * n + 2 || (|s| == 3 * n + 3 && s[3 * n + 2] == '\n'))
       && forall i: nat :: i < 3 * n + 2 ==> MacCharAt(s, i))
    decreases n
  {
    if n > 0 && |s| >= 3 {
      var t := s[3..];
      MatchesGroupsLayout(t, n - 1);
      if MatchesGroups(s, n) {
        forall i: nat | i < 3 * n + 2 ensures MacCharAt(s, i) {
          if i >= 3 {
            assert s[i] == t[i - 3];
            assert MacCharAt(t, i - 3);
          }
        }
      }
      if (|s| == 3 * n + 2 || (|s| == 3 * n + 3 && s[3 * n + 2] == '\n'))
         && forall i: nat :: i < 3 * n + 2 ==> MacCharAt(s, i)
      {
        assert MacCharAt(s, 0) && MacCharAt(s, 1) && MacCharAt(s, 2);
        forall i: nat | i < 3 * (n - 1) + 2 ensures MacCharAt(t, i) {
          assert t[i] == s[i + 3];
          assert MacCharAt(s, i + 3);
        }
      }
    } else if n == 0 && |s| >= 2 {
      if forall i: nat :: i < 2 ==> MacCharAt(s, i) {
        assert MacCharAt(s, 0) && MacCharAt(s, 1);
      }
    }
  }

  /** A MAC is six two-hex-digit groups with a `:` or `-` between each pair
      (each separator chosen independently), optionally followed by one newline. */
  lemma IsMacLayout(s: string)
    ensures IsMac(s) <==>
      (&& (|s| == 17 || (|s| == 18 && s[17] == '\n'))
       && forall i: nat :: i < 17 ==> MacCharAt(s, i))
  {
    MatchesGroupsLayout(s, 5);
  }

  /** Mixed separators and mixed case are accepted, a trailing newline too. */
  lemma MacAccepted()
    ensures IsMac("aa:BB-cc:00:11:2F")
    ensures IsMac("aa:BB-cc:00:11:2F\n")
  {
  }

  /** A trailing space, a short group or a dot separator are refused. */
  lemma MacRefused()
    ensures !IsMac("aa:BB-cc:00:11:2F ")
    ensures !IsMac("a:BB-cc:00:11:2F0")
    ensures !IsMac("aa.BB.cc.00.11.2F")
  {
  }

  // ---------------------------------------------------------------------------
  // Report lines: the DATA filter, the log entries and the tokeniser
  // ---------------------------------------------------------------------------

  /** `"DATA" in line`. */
  predicate HasMarker(line: string) {
    Contains(line, "DATA")
  }

  /** `[p.strip() for p in line.split(',')]`: one token per comma-separated
      piece, whitespace removed at both ends. */
  function Tokenise(line: string): (tokens: seq<string>)
    ensures |tokens| == Count(line, ',') + 1
    ensures forall i :: 0 <= i < |tokens| ==> IsStripped(tokens[i]) && ',' !in tokens[i]
  {
    var pieces := SplitOn(line, ',');
    StripEachKeepsAbsent(pieces, ',');
    StripEach(pieces)
  }

  /** `[p.strip() for p in pieces]`. */
  function StripEach(pieces: seq<string>): (r: seq<string>)
    ensures |r| == |pieces|
  {
    if |pieces| == 0 then [] else [Strip(pieces[0])] + StripEach(pieces[1..])
  }

  /** Every stripped piece is stripped, and has no character its piece lacks. */
  lemma {:induction false} StripEachKeepsAbsent(pieces: seq<string>, c: char)
    requires forall i :: 0 <= i < |pieces| ==> c !in pieces[i]
    ensures forall i :: 0 <= i < |pieces| ==> IsStripped(StripEach(pieces)[i]) && c !in StripEach(pieces)[i]
  {
    if |pieces| > 0 {
      var tail := pieces[1..];
      StripEachKeepsAbsent(tail, c);
      StripKeepsAbsent(pieces[0], c);
      forall i | 1 <= i < |pieces| ensures c !in StripEach(pieces)[i] {
        assert StripEach(pieces)[i] == StripEach(tail)[i - 1];
      }
    }
  }

  /** The lines of one received chunk: `data.strip().split('\n')`. */
  function ChunkLines(data: string): seq<string> {
    SplitOn(Strip(data), '\n')
  }

  /** The lines that carry the `DATA` marker, in order. */
  function ReportLines(lines: seq<string>): (r: seq<string>)
    ensures |r| <= |lines|
    ensures forall i :: 0 <= i < |r| ==> HasMarker(r[i])
  {
    if |lines| == 0 then []
    else
      var init := ReportLines(lines[..|lines| - 1]);
      var last := lines[|lines| - 1];
      if HasMarker(last) then init + [last] else init
  }

  /** Exactly the lines with the marker pass the filter. */
  lemma {:induction false} ReportLinesMembers(lines: seq<string>)
    ensures forall l :: l in ReportLines(lines) <==> l in lines && HasMarker(l)
  {
    if |lines| > 0 {
      ReportLinesMembers(lines[..|lines| - 1]);
      assert lines == lines[..|lines| - 1] + [lines[|lines| - 1]];
    }
  }

  /** The log entries one group of report lines adds, each tagged with its transport. */
  function Tagged(tag: string, lines: seq<string>): (r: seq<string>)
    ensures |r| == |lines|
  {
    if |lines| == 0 then []
    else Tagged(tag, lines[..|lines| - 1]) + [tag + lines[|lines| - 1]]
  }

  /** Each log entry is the tag followed by its line. */
  lemma {:induction false} TaggedLines(tag: string, lines: seq<string>)
    ensures forall i :: 0 <= i < |lines| ==>
              |Tagged(tag, lines)[i]| == |tag| + |lines[i]|
              && Tagged(tag, lines)[i][..|tag|] == tag && Tagged(tag, lines)[i][|tag|..] == lines[i]
  {
    if |lines| > 0 {
      var init := lines[..|lines| - 1];
      TaggedLines(tag, init);
      var last := tag + lines[|lines| - 1];
      assert last[..|tag|] == tag && last[|tag|..] == lines[|lines| - 1];
    }
  }

  /** The tokens of each report line. */
  function TokenLists(lines: seq<string>): (r: seq<seq<string>>)
    ensures |r| == |lines|
  {
    if |lines| == 0 then []
    else TokenLists(lines[..|lines| - 1]) + [Tokenise(lines[|lines| - 1])]
  }

  /** Entry `i` holds the tokens of line `i`. */
  lemma {:induction false} TokenListsAt(lines: seq<string>)
    ensures forall i :: 0 <= i < |lines| ==> TokenLists(lines)[i] == Tokenise(lines[i])
  {
    if |lines| > 0 {
      TokenListsAt(lines[..|lines| - 1]);
    }
  }

  /** One more line adds itself to the report lines exactly when it is marked. */
  lemma ReportLinesSnoc(lines: seq<string>, i: nat)
    requires i < |lines|
    ensures ReportLines(lines[..i + 1]) ==
      if HasMarker(lines[i]) then ReportLines(lines[..i]) + [lines[i]] else ReportLines(lines[..i])
  {
    assert lines[..i + 1][..i] == lines[..i];
  }

  lemma TaggedSnoc(tag: string, lines: seq<string>, line: string)
    ensures Tagged(tag, lines + [line]) == Tagged(tag, lines) + [tag + line]
  {
    assert (lines + [line])[..|lines|] == lines;
  }

  lemma TokenListsSnoc(lines: seq<string>, line: string)
    ensures TokenLists(lines + [line]) == TokenLists(lines) + [Tokenise(line)]
  {
    assert (lines + [line])[..|lines|] == lines;
  }

  /** What one serial read adds to the log: the line is stripped and, when it
      carries the marker, logged as `USB: <line>`. */
  function UsbEntries(usbLine: Option<string>): (r: seq<string>)
    ensures |r| <= 1
    ensures |r| == 1 <==> usbLine.Some? && HasMarker(Strip(usbLine.value))
    ensures |r| == 1 ==> r[0] == "USB: " + Strip(usbLine.value)
  {
    if usbLine.Some? && HasMarker(Strip(usbLine.value)) then ["USB: " + Strip(usbLine.value)] else []
  }

  // ---------------------------------------------------------------------------
  // Scenes
  // ---------------------------------------------------------------------------

  /** The toggle button's `(idx + 1) % 4`. */
  function NextScene(idx: int): (r: int)
    ensures 0 <= r < SceneCount as int
  {
    (idx + 1) % SceneCount as int
  }

  /** The scene after `k` presses of the toggle button. */
  function Toggled(idx: int, k: nat): (r: int)
    ensures k > 0 ==> 0 <= r < SceneCount as int
    decreases k
  {
    if k == 0 then idx else NextScene(Toggled(idx, k - 1))
  }

  /** `k` presses from a valid scene land on scene `(idx + k) % 4`. */
  lemma {:induction false} ToggledIsModular(idx: int, k: nat)
    requires 0 <= idx < SceneCount as int
    ensures Toggled(idx, k) == (idx + k) % SceneCount as int
    decreases k
  {
    if k > 0 {
      ToggledIsModular(idx, k - 1);
    }
  }

  /** Four presses bring the scene back, and `k` presses change it exactly
      when `k` is not a multiple of four. */
  lemma TogglesChangeScene(idx: int, k: nat)
    requires 0 <= idx < SceneCount as int
    ensures Toggled(idx, 4) == idx
    ensures Toggled(idx, k) != idx <==> k % SceneCount as int != 0
  {
    ToggledIsModular(idx, 4);
    ToggledIsModular(idx, k);
  }

  // ---------------------------------------------------------------------------
  // Positions
  // ---------------------------------------------------------------------------

  /** A node position on the canvas. */
  datatype Point = Point(x: real, y: real)

  /** The padding point: the middle of the view. */
  function Center(viewX: nat, viewY: nat): (c: Point)
    ensures 2.0 * c.x == viewX as real && 2.0 * c.y == viewY as real
  {
    Point(viewX as real / 2.0, viewY as real / 2.0)
  }

  /** The default layout: four columns, `view // 5` apart, starting at 100. */
  function DefaultSlot(i: nat, viewX: nat, viewY: nat): Point {
    Point(((i % 4) * (viewX / 5) + 100) as real, ((i / 4) * (viewY / 5) + 100) as real)
  }

  function DefaultLayout(viewX: nat, viewY: nat): (r: seq<Point>)
    ensures |r| == NodeCount
    ensures forall i :: 0 <= i < |r| ==> r[i] == DefaultSlot(i, viewX, viewY)
  {
    seq(NodeCount, i requires 0 <= i < NodeCount => DefaultSlot(i, viewX, viewY))
  }

  /** Once the view is at least five units wide and high, no two default
      positions coincide, and all of them lie at or beyond (100, 100). */
  lemma DefaultLayoutDistinct(viewX: nat, viewY: nat, i: nat, j: nat)
    requires viewX >= 5 && viewY >= 5
    requires i < j < NodeCount
    ensures DefaultSlot(i, viewX, viewY) != DefaultSlot(j, viewX, viewY)
    ensures DefaultSlot(i, viewX, viewY).x >= 100.0 && DefaultSlot(i, viewX, viewY).y >= 100.0
  {
    var dx, dy := viewX / 5, viewY / 5;
    if i % 4 == j % 4 {
      assert i / 4 < j / 4;
      ScaleIsStrict(i / 4, j / 4, dy);
    } else if i % 4 < j % 4 {
      ScaleIsStrict(i % 4, j % 4, dx);
    } else {
      ScaleIsStrict(j % 4, i % 4, dx);
    }
  }

  lemma ScaleIsStrict(a: nat, b: nat, d: nat)
    requires a < b && d > 0
    ensures a * d < b * d
  {
  }

  /** The stored positions brought to exactly `NodeCount` entries: the stored
      ones first, in order, then the padding point. */
  function PadPositions(fixed: seq<Point>, center: Point): (r: seq<Point>)
    ensures |r| == NodeCount
    ensures forall i :: 0 <= i < |r| ==> r[i] == if i < |fixed| then fixed[i] else center
  {
    if |fixed| >= NodeCount then fixed[..NodeCount]
    else fixed + seq(NodeCount - |fixed|, _ => center)
  }

  /** The padding as the script writes it: `np.vstack([pos, extra])` with `pos`
      the array of the stored list. For an empty list `np.array([])` has shape
      (0,); `np.vstack` lifts it to (1, 0), which does not stack with rows of
      two, so the call raises. */
  function PadPositionsAsWritten(fixed: seq<Point>, center: Point): Option<seq<Point>> {
    if |fixed| == 0 then None else Some(PadPositions(fixed, center))
  }

  // ---------------------------------------------------------------------------
  // Custom names: a dictionary from slot numbers to optional names
  // ---------------------------------------------------------------------------

  /** `custom_names` in insertion order: each entry is a slot and its name
      (`None` for no name). */
  type Names = seq<(int, Option<string>)>

  predicate DistinctKeys(names: Names) {
    forall i, j :: 0 <= i < j < |names| ==> names[i].0 != names[j].0
  }

  /** Reading `custom_names[k]`: `None` when the key is absent, `Some(v)` when
      the slot holds `v`. */
  function Lookup(names: Names, k: int): (r: Option<Option<string>>)
    ensures r.None? <==> forall i :: 0 <= i < |names| ==> names[i].0 != k
  {
    if |names| == 0 then None
    else if names[0].0 == k then Some(names[0].1)
    else Lookup(names[1..], k)
  }

  /** `names[k] = v`: an existing key keeps its place, a new one goes last. */
  function Assign(names: Names, k: int, v: Option<string>): (r: Names)
    ensures Lookup(r, k) == Some(v)
    ensures forall j :: j != k ==> Lookup(r, j) == Lookup(names, j)
    ensures |r| == if Lookup(names, k).Some? then |names| else |names| + 1
  {
    if |names| == 0 then [(k, v)]
    else if names[0].0 == k then [(k, v)] + names[1..]
    else [names[0]] + Assign(names[1..], k, v)
  }

  /** Assignment keeps the keys distinct. */
  lemma {:induction false} AssignKeepsDistinct(names: Names, k: int, v: Option<string>)
    ensures DistinctKeys(names) ==> DistinctKeys(Assign(names, k, v))
  {
    if DistinctKeys(names) && |names| > 0 && names[0].0 != k {
      var tail := names[1..];
      var rest := Assign(tail, k, v);
      AssignKeepsDistinct(tail, k, v);
      var other := names[0].0;
      assert Lookup(tail, other).None?;
      assert Lookup(rest, other).None?;
      var r := [names[0]] + rest;
      forall i, j | 0 <= i < j < |r| ensures r[i].0 != r[j].0 {
        assert r[j] == rest[j - 1];
        if i > 0 {
          assert r[i] == rest[i - 1];
        }
      }
    }
  }

  /** `{i: None for i in range(N_NODES)}`. */
  function InitialNames(): (r: Names)
    ensures DistinctKeys(r)
    ensures forall k :: Lookup(r, k) == if 0 <= k < NodeCount as int then Some(None) else None
  {
    var r := seq(NodeCount, i requires 0 <= i < NodeCount => (i, None));
    forall k ensures Lookup(r, k) == if 0 <= k < NodeCount as int then Some(None) else None {
      LookupAt(r, k);
    }
    r
  }

  lemma {:induction false} LookupAt(names: Names, k: int)
    requires forall i :: 0 <= i < |names| ==> names[i] == (i, None)
    ensures Lookup(names, k) == if 0 <= k < |names| then Some(None) else None
    decreases |names|
  {
    if |names| > 0 && k != 0 {
      var rest := names[1..];
      var shifted := seq(|rest|, i requires 0 <= i < |rest| => (i, None));
      LookupAt(shifted, k - 1);
      LookupShift(rest, shifted, k);
    }
  }

  /** Looking up `k` in a list whose keys are one more than another's. */
  lemma {:induction false} LookupShift(names: Names, shifted: Names, k: int)
    requires |names| == |shifted|
    requires forall i :: 0 <= i < |names| ==> names[i] == (shifted[i].0 + 1, shifted[i].1)
    ensures Lookup(names, k) == Lookup(shifted, k - 1)
    decreases |names|
  {
    if |names| > 0 {
      LookupShift(names[1..], shifted[1..], k);
    }
  }

  /** What the names loop did: the names after it, and whether it ran to the
      end (`false`: a key was not an integer and `int(k)` raised). */
  datatype NameLoad = NameLoad(names: Names, complete: bool)

  /** `for k, v in names_dict.items(): if int(k) < N_NODES: custom_names[int(k)] = v`,
      stopping at the first key that is not an integer, with the names assigned
      before it kept. */
  function LoadNames(names: Names, items: seq<(string, Option<string>)>): (r: NameLoad)
    ensures DistinctKeys(names) ==> DistinctKeys(r.names)
    decreases |items|
  {
    if |items| == 0 then NameLoad(names, true)
    else
      match ParseInt(items[0].0)
      case None => NameLoad(names, false)
      case Some(k) =>
        AssignKeepsDistinct(names, k, items[0].1);
        LoadNames(if k < NodeCount as int then Assign(names, k, items[0].1) else names, items[1..])
  }

  /** The loop runs to the end exactly when every key is an integer. */
  lemma {:induction false} LoadNamesComplete(names: Names, items: seq<(string, Option<string>)>)
    ensures LoadNames(names, items).complete <==> AllKeysParse(items)
    decreases |items|
  {
    if |items| > 0 {
      var key := ParseInt(items[0].0);
      if key.Some? {
        var k := key.value;
        var next := if k < NodeCount as int then Assign(names, k, items[0].1) else names;
        assert LoadNames(names, items) == LoadNames(next, items[1..]);
        LoadNamesComplete(next, items[1..]);
        AllKeysParseCons(items);
      }
    }
  }

  /** Every key of the items reads as an integer. */
  predicate AllKeysParse(items: seq<(string, Option<string>)>) {
    forall i :: 0 <= i < |items| ==> ParseInt(items[i].0).Some?
  }

  lemma AllKeysParseCons(items: seq<(string, Option<string>)>)
    requires |items| > 0
    ensures AllKeysParse(items) <==> ParseInt(items[0].0).Some? && AllKeysParse(items[1..])
  {
    var tail := items[1..];
    if ParseInt(items[0].0).Some? && AllKeysParse(tail) {
      forall i | 0 <= i < |items| ensures ParseInt(items[i].0).Some? {
        if i > 0 {
          assert items[i] == tail[i - 1];
        }
      }
    }
    if AllKeysParse(items) {
      forall i | 0 <= i < |tail| ensures ParseInt(tail[i].0).Some? {
        assert tail[i] == items[i + 1];
      }
    }
  }

  /** A slot keeps its name unless some key of the file reads as that slot and
      the slot is below `N_NODES`. */
  lemma {:induction false} LoadNamesUntouched(names: Names, items: seq<(string, Option<string>)>, k: int)
    requires k >= NodeCount as int || forall i :: 0 <= i < |items| ==> ParseInt(items[i].0) != Some(k)
    ensures Lookup(LoadNames(names, items).names, k) == Lookup(names, k)
    decreases |items|
  {
    if |items| > 0 && ParseInt(items[0].0).Some? {
      var j := ParseInt(items[0].0).value;
      var next := if j < NodeCount as int then Assign(names, j, items[0].1) else names;
      assert forall i :: 1 <= i < |items| ==> items[i] == items[1..][i - 1];
      LoadNamesUntouched(next, items[1..], k);
    }
  }

  /** One turn of the names loop on a key that reads as `j0`. */
  lemma LoadNamesUnfold(names: Names, items: seq<(string, Option<string>)>, j0: int)
    requires |items| > 0 && ParseInt(items[0].0) == Some(j0)
    ensures LoadNames(names, items) ==
      LoadNames(if j0 < NodeCount as int then Assign(names, j0, items[0].1) else names, items[1..])
  {
  }

  /** A slot below `N_NODES` ends with the value of the last key that reads as
      it, provided the loop gets that far (every key up to it is an integer). */
  lemma {:induction false} LoadNamesSetsLast(names: Names, items: seq<(string, Option<string>)>, i: nat, k: int)
    requires i < |items|
    requires forall j :: 0 <= j < i ==> ParseInt(items[j].0).Some?
    requires ParseInt(items[i].0) == Some(k) && k < NodeCount as int
    requires forall j :: i < j < |items| ==> ParseInt(items[j].0) != Some(k)
    ensures Lookup(LoadNames(names, items).names, k) == Some(items[i].1)
    decreases i
  {
    var j0 := ParseInt(items[0].0).value;
    var next := if j0 < NodeCount as int then Assign(names, j0, items[0].1) else names;
    var rest := items[1..];
    LoadNamesUnfold(names, items, j0);
    if i == 0 {
      forall j | 0 <= j < |rest| ensures ParseInt(rest[j].0) != Some(k) {
        assert rest[j] == items[j + 1];
      }
      LoadNamesUntouched(next, rest, k);
    } else {
      forall j | 0 <= j < i - 1 ensures ParseInt(rest[j].0).Some? {
        assert rest[j] == items[j + 1];
      }
      forall j | i - 1 < j < |rest| ensures ParseInt(rest[j].0) != Some(k) {
        assert rest[j] == items[j + 1];
      }
      assert rest[i - 1] == items[i];
      LoadNamesSetsLast(next, rest, i - 1, k);
    }
  }

  /** `{str(k): v for k, v in custom_names.items() if v is not None}`. */
  function SavedNames(names: Names): (r: seq<(string, Option<string>)>)
    ensures |r| <= |names|
    ensures forall i :: 0 <= i < |r| ==> r[i].1.Some?
  {
    if |names| == 0 then []
    else if names[0].1.Some? then [(IntToString(names[0].0), names[0].1)] + SavedNames(names[1..])
    else SavedNames(names[1..])
  }

  /** The saved map holds exactly the slots that have a name, each under its
      number written out. */
  lemma {:induction false} SavedNamesMembers(names: Names)
    ensures forall p :: p in SavedNames(names) <==>
      exists i :: 0 <= i < |names| && names[i].1.Some? && p == (IntToString(names[i].0), names[i].1)
  {
    if |names| > 0 {
      var tail := names[1..];
      SavedNamesMembers(tail);
      forall p | p in SavedNames(names)
        ensures exists i :: 0 <= i < |names| && names[i].1.Some? && p == (IntToString(names[i].0), names[i].1)
      {
        if p !in SavedNames(tail) {
          assert names[0].1.Some? && p == (IntToString(names[0].0), names[0].1);
        } else {
          var i :| 0 <= i < |tail| && tail[i].1.Some? && p == (IntToString(tail[i].0), tail[i].1);
          assert names[i + 1] == tail[i];
        }
      }
      forall i | 0 <= i < |names| && names[i].1.Some?
        ensures (IntToString(names[i].0), names[i].1) in SavedNames(names)
      {
        if i > 0 {
          assert names[i] == tail[i - 1];
        }
      }
    }
  }

  /** No two saved entries share a key, so the comprehension keeps every named
      slot. */
  lemma {:induction false} SavedKeysDistinct(names: Names)
    requires DistinctKeys(names)
    ensures forall i, j :: 0 <= i < j < |SavedNames(names)| ==> SavedNames(names)[i].0 != SavedNames(names)[j].0
  {
    if |names| > 0 {
      var tail := names[1..];
      assert forall i :: 0 <= i < |tail| ==> tail[i] == names[i + 1];
      SavedKeysDistinct(tail);
      if names[0].1.Some? {
        var r := SavedNames(tail);
        SavedNamesMembers(tail);
        forall j | 0 <= j < |r| ensures r[j].0 != IntToString(names[0].0) {
          assert r[j] in r;
          var m :| 0 <= m < |tail| && tail[m].1.Some? && r[j] == (IntToString(tail[m].0), tail[m].1);
          if r[j].0 == IntToString(names[0].0) {
            IntToStringInjective(tail[m].0, names[0].0);
            assert false;
          }
        }
        var s := [(IntToString(names[0].0), names[0].1)] + r;
        assert SavedNames(names) == s;
        forall i, j | 0 <= i < j < |s| ensures s[i].0 != s[j].0 {
          assert s[j] == r[j - 1];
          if i > 0 {
            assert s[i] == r[i - 1];
          }
        }
      }
    }
  }

  /** Saving and loading back: every key of the saved map is an integer, each
      slot below `N_NODES` that had a name gets it back, and every other slot
      keeps what it had before the load. */
  lemma {:induction false} SaveLoadRoundTrip(saved: Names, names: Names, k: int)
    requires DistinctKeys(saved)
    ensures LoadNames(names, SavedNames(saved)).complete
    ensures Lookup(LoadNames(names, SavedNames(saved)).names, k) ==
      (if k < NodeCount as int && Lookup(saved, k).Some? && Lookup(saved, k).value.Some?
       then Lookup(saved, k) else Lookup(names, k))
    decreases |saved|
  {
    if |saved| > 0 {
      var rest := saved[1..];
      var k0, v0 := saved[0].0, saved[0].1;
      assert DistinctKeys(rest);
      var next := names;
      if v0.Some? {
        next := if k0 < NodeCount as int then Assign(names, k0, v0) else names;
        var item := (IntToString(k0), v0);
        assert SavedNames(saved) == [item] + SavedNames(rest);
        ParseIntToString(k0);
        assert ([item] + SavedNames(rest))[1..] == SavedNames(rest);
        assert LoadNames(names, [item] + SavedNames(rest)) == LoadNames(next, SavedNames(rest));
      } else {
        assert SavedNames(saved) == SavedNames(rest);
      }
      assert LoadNames(names, SavedNames(saved)) == LoadNames(next, SavedNames(rest));
      SaveLoadRoundTrip(rest, next, k);
      if k == k0 {
        assert Lookup(rest, k).None?;
      }
    }
  }

  // ---------------------------------------------------------------------------
  // The store file
  // ---------------------------------------------------------------------------

  /** The parsed JSON record: the `fixed` position list and the `names` object
      as its items in file order (`[]` for a missing entry, as `data.get`
      gives). A `null` name reads as `None`. */
  datatype Store = Store(fixed: seq<Point>, names: seq<(string, Option<string>)>)

  /** `load_positions_and_names`: the positions it returns and the names it
      leaves. Without a readable store the default layout is used; a key that
      is not an integer aborts the load with the default layout, after the
      names before it were assigned. */
  function Loaded(names: Names, file: Option<Store>, viewX: nat, viewY: nat): (r: (seq<Point>, Names))
    ensures |r.0| == NodeCount
    ensures DistinctKeys(names) ==> DistinctKeys(r.1)
    ensures file.None? ==> r == (DefaultLayout(viewX, viewY), names)
  {
    match file
    case None => (DefaultLayout(viewX, viewY), names)
    case Some(store) =>
      var load := LoadNames(names, store.names);
      (if load.complete then PadPositions(store.fixed, Center(viewX, viewY)) else DefaultLayout(viewX, viewY),
       load.names)
  }

  /** The same as the script runs it, with the failing stack of an empty list. */
  function LoadedAsWritten(names: Names, file: Option<Store>, viewX: nat, viewY: nat): (r: (seq<Point>, Names))
    ensures |r.0| == NodeCount
  {
    match file
    case None => (DefaultLayout(viewX, viewY), names)
    case Some(store) =>
      if PadPositionsAsWritten(store.fixed, Center(viewX, viewY)).None? then (DefaultLayout(viewX, viewY), names)
      else Loaded(names, file, viewX, viewY)
  }

  /** The two agree on every store that lists at least one position. */
  lemma LoadedAsWrittenAgrees(names: Names, store: Store, viewX: nat, viewY: nat)
    requires |store.fixed| > 0
    ensures LoadedAsWritten(names, Some(store), viewX, viewY) == Loaded(names, Some(store), viewX, viewY)
  {
  }

  /** A store holding only a name for slot 3: the script ignores the name and
      falls back to the default layout, while padding the empty list keeps
      the name and puts every node in the middle of the view. */
  lemma EmptyPositionsDropNames()
    ensures var store := Store([], [("3", Some("Kitchen"))]);
      && LoadedAsWritten(InitialNames(), Some(store), 800, 600) == (DefaultLayout(800, 600), InitialNames())
      && Lookup(Loaded(InitialNames(), Some(store), 800, 600).1, 3) == Some(Some("Kitchen"))
      && Loaded(InitialNames(), Some(store), 800, 600).0 == seq(NodeCount, _ => Point(400.0, 300.0))
  {
    var store := Store([], [("3", Some("Kitchen"))]);
    ParseIntToString(3);
    assert IntToString(3) == "3";
    var load := LoadNames(InitialNames(), store.names);
    assert load == LoadNames(Assign(InitialNames(), 3, Some("Kitchen")), []);
  }

  /** The corrected load (not the script's, which fails on an empty list): when
      every key is an integer, the stored positions come first and the center
      point fills the remaining slots. */
  lemma LoadedKeepsStoredPositions(names: Names, store: Store, viewX: nat, viewY: nat, i: nat)
    requires AllKeysParse(store.names)
    requires i < NodeCount
    ensures Loaded(names, Some(store), viewX, viewY).0[i] ==
      if i < |store.fixed| then store.fixed[i] else Center(viewX, viewY)
  {
    LoadNamesComplete(names, store.names);
  }

  // ---------------------------------------------------------------------------
  // The dashboard's state
  // ---------------------------------------------------------------------------

  /** The loop over the lines of one chunk: the log entries it appends and the
      token lists it produces, line by line. */
  method ChunkReports(lines: seq<string>) returns (logged: seq<string>, reports: seq<seq<string>>)
    ensures logged == Tagged("NET: ", ReportLines(lines))
    ensures reports == TokenLists(ReportLines(lines))
  {
    logged, reports := [], [];
    for i := 0 to |lines|
      invariant logged == Tagged("NET: ", ReportLines(lines[..i]))
      invariant reports == TokenLists(ReportLines(lines[..i]))
    {
      var line := lines[i];
      ReportLinesSnoc(lines, i);
      if HasMarker(line) {
        TaggedSnoc("NET: ", ReportLines(lines[..i]), line);
        TokenListsSnoc(ReportLines(lines[..i]), line);
        logged := logged + ["NET: " + line];
        reports := reports + [Tokenise(line)];
      }
    }
    assert lines[..|lines|] == lines;
  }

  /** The globals the script updates in place: the raw log, the scene shown
      and the scene seen at the last tick, and the custom node names. */
  class Radar {
    var rawLog: seq<string>
    var currentScene: int
    var lastScene: int
    var customNames: Names

    predicate Valid()
      reads this
    {
      && 0 <= currentScene < SceneCount as int
      && 0 <= lastScene < SceneCount as int
      && DistinctKeys(customNames)
    }

    constructor ()
      ensures Valid()
      ensures rawLog == [] && currentScene == 0 && lastScene == 0
      ensures customNames == InitialNames()
    {
      rawLog := [];
      currentScene := 0;
      lastScene := 0;
      customNames := InitialNames();
    }

    /** The toggle button's callback. */
    method ToggleScene()
      requires Valid()
      modifies this
      ensures Valid()
      ensures currentScene == NextScene(old(currentScene))
      ensures lastScene == old(lastScene) && rawLog == old(rawLog) && customNames == old(customNames)
    {
      currentScene := NextScene(currentScene);
    }

    /** The start of one animation tick: report whether the scene changed since
      the last tick and record it, then handle one serial line. */
    method Tick(usbLine: Option<string>) returns (sceneChanged: bool)
      requires Valid()
      modifies this
      ensures Valid()
      ensures sceneChanged <==> old(currentScene) != old(lastScene)
      ensures lastScene == currentScene == old(currentScene)
      ensures rawLog == old(rawLog) + UsbEntries(usbLine)
      ensures customNames == old(customNames)
    {
      sceneChanged := currentScene != lastScene;
      lastScene := currentScene;
      if usbLine.Some? {
        var line := Strip(usbLine.value);
        if HasMarker(line) {
          rawLog := rawLog + ["USB: " + line];
        }
      }
    }

    /** One chunk from the socket: `data.strip().split('\n')`, each line handled
      as below. */
    method ReceiveNet(data: string) returns (reports: seq<seq<string>>)
      requires Valid()
      modifies this
      ensures Valid()
      ensures rawLog == old(rawLog) + Tagged("NET: ", ReportLines(ChunkLines(data)))
      ensures reports == TokenLists(ReportLines(ChunkLines(data)))
      ensures currentScene == old(currentScene) && lastScene == old(lastScene)
      ensures customNames == old(customNames)
    {
      reports := ReceiveLines(ChunkLines(data));
    }

    /** The lines of one chunk: each marked line is logged as `NET: <line>` and
      tokenised. */
    method ReceiveLines(lines: seq<string>) returns (reports: seq<seq<string>>)
      requires Valid()
      modifies this
      ensures Valid()
      ensures rawLog == old(rawLog) + Tagged("NET: ", ReportLines(lines))
      ensures reports == TokenLists(ReportLines(lines))
      ensures currentScene == old(currentScene) && lastScene == old(lastScene)
      ensures customNames == old(customNames)
    {
      var logged;
      logged, reports := ChunkReports(lines);
      rawLog := rawLog + logged;
    }

    /** `load_positions_and_names` over the parsed store, as the script runs
        it: the padding raises on an empty list before any name is read. */
    method LoadPositionsAndNames(file: Option<Store>, viewX: nat, viewY: nat) returns (coords: seq<Point>)
      requires Valid()
      modifies this
      ensures Valid()
      ensures (coords, customNames) == LoadedAsWritten(old(customNames), file, viewX, viewY)
      ensures currentScene == old(currentScene) && lastScene == old(lastScene) && rawLog == old(rawLog)
    {
      if file.None? {
        return DefaultLayout(viewX, viewY);
      }
      var store := file.value;
      var padded := PadPositionsAsWritten(store.fixed, Center(viewX, viewY));
      if padded.None? {
        return DefaultLayout(viewX, viewY);
      }
      var pos := padded.value;
      var items := store.names;
      ghost var names0 := customNames;
      var i := 0;
      while i < |items|
        invariant 0 <= i <= |items|
        invariant Valid()
        invariant currentScene == old(currentScene) && lastScene == old(lastScene) && rawLog == old(rawLog)
        invariant LoadNames(customNames, items[i..]) == LoadNames(names0, items)
      {
        var key := ParseInt(items[i].0);
        if key.None? {
          return DefaultLayout(viewX, viewY);
        }
        if key.value < NodeCount as int {
          AssignKeepsDistinct(customNames, key.value, items[i].1);
          customNames := Assign(customNames, key.value, items[i].1);
        }
        assert items[i..][1..] == items[i + 1..];
        i := i + 1;
      }
      coords := pos;
    }

    /** The record `save_positions_and_names` writes. */
    function Saved(coords: seq<Point>): (store: Store)
      reads this
      ensures store.fixed == coords
      ensures |store.names| <= |customNames|
    {
      Store(coords, SavedNames(customNames))
    }
  }
}
