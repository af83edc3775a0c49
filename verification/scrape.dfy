/** The pure transforms inside `RecentMatchDataScraper.get_match_data`:
    header naming and de-duplication, cell and row normalisation, penalty
    tagging, the split of an event's time/score text, the home/away team
    list, the red-card filter and the season rule. The HTML traversal that
    produces their inputs is not part of this model: the inputs are the
    texts `get_text(strip=True)` returns. */
module Scrape {
  import opened Wrappers
  import opened Text
  import opened Calendar
  import opened Teams

  // ---------------------------------------------------------------------
  // Shot-table headers

  /** The name given to an empty header cell at position `k`. */
  function Placeholder(k: nat): (r: string)
    ensures |r| > 7 && r[..7] == "Column_" && r[7..] == NatToString(k)
  {
    "Column_" + NatToString(k)
  }

  /** The header loop: every cell text kept, an empty one replaced by
      `Column_<number of headers collected so far>`. */
  function NameHeaders(cells: seq<string>): (r: seq<string>)
    ensures |r| == |cells|
    ensures forall k :: 0 <= k < |cells| && cells[k] != "" ==> r[k] == cells[k]
    ensures forall k :: 0 <= k < |cells| && cells[k] == "" ==> r[k] == Placeholder(k)
  {
    if |cells| == 0 then []
    else
      var n := |cells| - 1;
      var headers := NameHeaders(cells[..n]);
      var text := cells[n];
      assert forall k :: 0 <= k < n ==> cells[..n][k] == cells[k];
      headers + [if text != "" then text else Placeholder(n)]
  }

  /** No header is empty, and two empty cells never get the same name. */
  lemma PlaceholdersDistinct(cells: seq<string>, i: nat, j: nat)
    requires i < |cells| && j < |cells| && i != j && cells[i] == "" && cells[j] == ""
    ensures NameHeaders(cells)[i] != NameHeaders(cells)[j]
  {
    var r := NameHeaders(cells);
    if r[i] == r[j] {
      assert NatToString(i) == r[i][7..] == r[j][7..] == NatToString(j);
      NatToStringInjective(i, j);
    }
  }

  /** Occurrences of `x` in `s`. */
  function Count(s: seq<string>, x: string): (n: nat)
    ensures n <= |s|
    ensures n > 0 <==> x in s
  {
    if |s| == 0 then 0
    else
      assert s == s[..|s| - 1] + [s[|s| - 1]];
      Count(s[..|s| - 1], x) + (if s[|s| - 1] == x then 1 else 0)
  }

  /** `f"{header}_{count}"`. */
  function Renamed(h: string, count: nat): (r: string)
    ensures |r| > |h| && r[..|h|] == h && r[|h|] == '_' && r[|h| + 1..] == NatToString(count)
  {
    h + "_" + NatToString(count)
  }

  /** The name given to the `(n + 1)`-th occurrence of `h`. */
  function NameFor(h: string, n: nat): string {
    if n == 0 then h else Renamed(h, n + 1)
  }

  /** What the de-duplication makes of the header at position `k`: the name
      itself at its first occurrence, `name_j` at its j-th. */
  function UniqueName(headers: seq<string>, k: nat): string
    requires k < |headers|
  {
    NameFor(headers[k], Count(headers[..k], headers[k]))
  }

  /** The `header_counts` loop. */
  method UniquifyHeaders(headers: seq<string>) returns (unique: seq<string>)
    ensures |unique| == |headers|
    ensures forall k :: 0 <= k < |headers| ==> unique[k] == UniqueName(headers, k)
  {
    var counts: map<string, nat> := map[];
    unique := [];
    for i := 0 to |headers|
      invariant |unique| == i
      invariant forall x :: Count(headers[..i], x) == CountOf(counts, x)
      invariant forall x :: x in counts ==> counts[x] > 0
      invariant forall k :: 0 <= k < i ==> unique[k] == UniqueName(headers, k)
    {
      var h := headers[i];
      var seen := CountOf(counts, h);
      assert Count(headers[..i], h) == seen;
      var prev := counts;
      if h in counts {
        counts := counts[h := counts[h] + 1];
        unique := unique + [Renamed(h, counts[h])];
      } else {
        counts := counts[h := 1];
        unique := unique + [h];
      }
      assert unique[i] == UniqueName(headers, i);
      forall x ensures Count(headers[..i + 1], x) == CountOf(counts, x) {
        CountStep(headers, i);
        assert Count(headers[..i], x) == CountOf(prev, x);
      }
    }
  }

  /** The count a header has in `counts`; a missing header has none. */
  function CountOf(counts: map<string, nat>, x: string): nat {
    if x in counts then counts[x] else 0
  }

  /** Counting one header more adds one to its own count only. */
  lemma CountStep(s: seq<string>, i: nat)
    requires i < |s|
    ensures forall x :: Count(s[..i + 1], x) == Count(s[..i], x) + (if x == s[i] then 1 else 0)
  {
    assert s[..i + 1][..i] == s[..i];
  }

  lemma {:induction false} CountMonotone(s: seq<string>, i: nat, j: nat, x: string)
    requires i <= j <= |s|
    ensures Count(s[..i], x) <= Count(s[..j], x)
    decreases j - i
  {
    if i < j {
      CountMonotone(s, i, j - 1, x);
      assert s[..j][..j - 1] == s[..j - 1];
    }
  }

  /** Without `_` in any header the renamed headers are all distinct. */
  lemma UniqueWithoutUnderscore(headers: seq<string>, i: nat, j: nat)
    requires i < j < |headers|
    requires forall k :: 0 <= k < |headers| ==> '_' !in headers[k]
    ensures UniqueName(headers, i) != UniqueName(headers, j)
  {
    var a, b := headers[i], headers[j];
    var ni, nj := Count(headers[..i], a), Count(headers[..j], b);
    assert a == b ==> nj > ni by {
      if a == b {
        CountMonotone(headers, i + 1, j, a);
        assert headers[..i + 1] == headers[..i] + [a];
      }
    }
    NamesDistinct(a, b, ni, nj);
  }

  /** Two headers without `_` get different names unless they are the same
      header seen equally often. */
  lemma NamesDistinct(a: string, b: string, na: nat, nb: nat)
    requires '_' !in a && '_' !in b
    requires a == b ==> na < nb
    ensures NameFor(a, na) != NameFor(b, nb)
  {
    var ra, rb := NameFor(a, na), NameFor(b, nb);
    if na == 0 && nb == 0 {
    } else if na == 0 {
      assert rb[|b|] == '_';
    } else if nb == 0 {
      assert ra[|a|] == '_';
    } else if a != b {
      if |a| < |b| {
        assert ra[|a|] != rb[|a|];
      } else if |b| < |a| {
        assert ra[|b|] != rb[|b|];
      } else {
        assert ra[..|a|] != rb[..|b|];
      }
    } else {
      RenamedDistinct(a, na + 1, nb + 1);
    }
  }

  /** Different occurrence numbers give different names. */
  lemma RenamedDistinct(h: string, c: nat, d: nat)
    requires c != d
    ensures Renamed(h, c) != Renamed(h, d)
  {
    NatToStringValue(c);
    NatToStringValue(d);
    assert Renamed(h, c)[|h| + 1..] != Renamed(h, d)[|h| + 1..];
  }

  /** De-duplication is not injective: `["A", "A", "A_2"]` comes out with
      `A_2` twice. */
  lemma UniquifyCanCollide()
    ensures UniqueName(["A", "A", "A_2"], 1) == UniqueName(["A", "A", "A_2"], 2) == "A_2"
  {
    var hs := ["A", "A", "A_2"];
    assert hs[..1] == ["A"] && hs[..2] == ["A", "A"];
    assert Count(hs[..1], "A") == 1;
    assert "A_2" !in hs[..2];
    assert NatToString(2) == "2";
  }

  // ---------------------------------------------------------------------
  // Shot-table rows

  /** `value if value != '' else "0"`. */
  function NormaliseCell(v: string): (r: string)
    ensures r != ""
    ensures v != "" ==> r == v
  {
    if v == "" then "0" else v
  }

  function NormaliseRow(row: seq<string>): (r: seq<string>)
    ensures |r| == |row| && forall i :: 0 <= i < |row| ==> r[i] == NormaliseCell(row[i])
  {
    seq(|row|, i requires 0 <= i < |row| => NormaliseCell(row[i]))
  }

  /** A row of the frame: exactly `width` cells, none empty. */
  predicate WellShaped(row: seq<string>, width: nat) {
    |row| == width && forall i :: 0 <= i < |row| ==> row[i] != ""
  }

  /** The row loop: every row normalised, kept only when it has as many
      cells as there are headers. */
  function NormaliseRows(rows: seq<seq<string>>, width: nat): (r: seq<seq<string>>)
    ensures |r| <= |rows|
    ensures forall k :: 0 <= k < |r| ==> WellShaped(r[k], width)
    ensures forall src :: src in rows && |src| == width ==> NormaliseRow(src) in r
  {
    if |rows| == 0 then []
    else
      var rest := NormaliseRows(rows[..|rows| - 1], width);
      var last := rows[|rows| - 1];
      assert rows == rows[..|rows| - 1] + [last];
      if |last| == width then rest + [NormaliseRow(last)] else rest
  }

  /** Every kept row is the normalised form of an input row of the right width. */
  lemma {:induction false} NormaliseRowsFromInput(rows: seq<seq<string>>, width: nat)
    ensures forall row :: row in NormaliseRows(rows, width) ==>
      exists src :: src in rows && |src| == width && row == NormaliseRow(src)
    decreases |rows|
  {
    if |rows| > 0 {
      var init := rows[..|rows| - 1];
      NormaliseRowsFromInput(init, width);
      assert forall src :: src in init ==> src in rows;
      assert rows[|rows| - 1] in rows;
    }
  }

  /** Rows are handled one at a time, in order: normalising a concatenation
      concatenates the results. */
  lemma {:induction false} NormaliseRowsAppend(a: seq<seq<string>>, b: seq<seq<string>>, width: nat)
    ensures NormaliseRows(a + b, width) == NormaliseRows(a, width) + NormaliseRows(b, width)
    decreases |b|
  {
    if |b| == 0 {
      assert a + b == a;
    } else {
      var b' := b[..|b| - 1];
      assert (a + b)[..|a + b| - 1] == a + b';
      NormaliseRowsAppend(a, b', width);
    }
  }

  /** Normalised rows are left alone by a second pass. */
  lemma {:induction false} NormaliseRowsIdempotent(rows: seq<seq<string>>, width: nat)
    ensures NormaliseRows(NormaliseRows(rows, width), width) == NormaliseRows(rows, width)
    decreases |rows|
  {
    if |rows| > 0 {
      var k := |rows| - 1;
      NormaliseRowsIdempotent(rows[..k], width);
      var rest := NormaliseRows(rows[..k], width);
      if |rows[k]| == width {
        var row := NormaliseRow(rows[k]);
        NormaliseRowsAppend(rest, [row], width);
        assert NormaliseRow(row) == row;
        assert NormaliseRows([row], width) == NormaliseRows([], width) + [row] by {
          assert [row][..0] == [];
        }
      }
    }
  }

  // ---------------------------------------------------------------------
  // Penalty tagging

  /** `"Penalty" if "(pen)" in str(player).lower() else "Shot"`. */
  function EventType(player: string): (r: string)
    ensures r == "Penalty" || r == "Shot"
    ensures r == "Penalty" <==> Contains(Lower(player), "(pen)")
  {
    if Contains(Lower(player), "(pen)") then "Penalty" else "Shot"
  }

  lemma LowerIdempotent(s: string)
    ensures Lower(Lower(s)) == Lower(s)
  {
    assert forall i :: 0 <= i < |s| ==> LowerChar(LowerChar(s[i])) == LowerChar(s[i]);
  }

  /** The tag ignores case: a player string and its lower-cased form are
      tagged alike. */
  lemma EventTypeIgnoresCase(player: string)
    ensures EventType(Lower(player)) == EventType(player)
  {
    LowerIdempotent(player);
  }

  // ---------------------------------------------------------------------
  // Event time and score

  datatype TimeScore = TimeScore(time: string, score: string)

  /** `text.split("'")[0] + "'"` and `text.split("'")[1]` when the text has an
      apostrophe, the whole text and `''` otherwise. */
  function SplitTimeScore(text: string): (r: TimeScore)
    ensures '\'' !in text ==> r == TimeScore(text, "")
    ensures '\'' in text ==> SplitAtApostrophe(text, r)
  {
    if '\'' in text then
      var r := TimeScore(FieldBefore(text, '\'') + "'", SecondField(text, '\''));
      SplitShape(text);
      r
    else TimeScore(text, "")
  }

  /** `r` cuts `text` at its first apostrophe: the time runs up to and
      including it, the score up to the next apostrophe or the end. */
  predicate SplitAtApostrophe(text: string, r: TimeScore) {
    && |r.time| > 0 && r.time[|r.time| - 1] == '\''
    && '\'' !in r.time[..|r.time| - 1] && '\'' !in r.score
    && |r.time| + |r.score| <= |text|
    && text[..|r.time| + |r.score|] == r.time + r.score
    && (|r.time| + |r.score| == |text| || text[|r.time| + |r.score|] == '\'')
  }

  lemma SplitShape(text: string)
    requires '\'' in text
    ensures SplitAtApostrophe(text, TimeScore(FieldBefore(text, '\'') + "'", SecondField(text, '\'')))
  {
    var before := FieldBefore(text, '\'');
    var after := SecondField(text, '\'');
    var time := before + "'";
    var k := |time|;
    assert time[..k - 1] == before;
    assert text[..k] == time;
    assert text[k..k + |after|] == after;
    assert text[..k + |after|] == time + after by {
      assert text[..k + |after|] == text[..k] + text[k..k + |after|];
    }
  }

  /** The time and score together are a prefix of the text: only the
      apostrophe closing the score, and what follows it, are dropped. */
  lemma SplitTimeScoreLosesOnlyTail(text: string)
    ensures var r := SplitTimeScore(text);
      && |r.time| + |r.score| <= |text|
      && text == r.time + r.score + text[|r.time| + |r.score|..]
  {
    var r := SplitTimeScore(text);
    if '\'' in text {
      assert SplitAtApostrophe(text, r);
      var k := |r.time| + |r.score|;
      assert text == text[..k] + text[k..];
    } else {
      assert r == TimeScore(text, "");
      assert text[|text|..] == [];
    }
  }

  // ---------------------------------------------------------------------
  // Teams

  function StripAll(names: seq<string>): (r: seq<string>)
    ensures |r| == |names| && forall i :: 0 <= i < |names| ==> r[i] == Strip(names[i])
  {
    seq(|names|, i requires 0 <= i < |names| => Strip(names[i]))
  }

  /** `list(dict.fromkeys(...))` over the non-empty names: first-seen order,
      no repeats. */
  function FirstSeen(names: seq<string>): (r: seq<string>)
    ensures Distinct(r)
    ensures forall k :: 0 <= k < |r| ==> r[k] != ""
    ensures forall t :: t in r <==> t != "" && t in names
  {
    if |names| == 0 then []
    else
      var k := |names| - 1;
      var rest := FirstSeen(names[..k]);
      assert names == names[..k] + [names[k]];
      if names[k] == "" || names[k] in rest then rest else rest + [names[k]]
  }

  /** The team names of the stats header: stripped, blanks dropped, repeats
      dropped. */
  function CleanTeams(names: seq<string>): (r: seq<string>)
    ensures Distinct(r)
    ensures forall k :: 0 <= k < |r| ==> r[k] != ""
    ensures forall t :: t in r <==> t != "" && t in StripAll(names)
  {
    FirstSeen(StripAll(names))
  }

  /** Later names never move earlier ones: the list for a prefix of the
      names is a prefix of the list for all of them. */
  lemma {:induction false} FirstSeenPrefix(names: seq<string>, k: nat)
    requires k <= |names|
    ensures var p, r := FirstSeen(names[..k]), FirstSeen(names);
      |p| <= |r| && r[..|p|] == p
    decreases |names| - k
  {
    if k < |names| {
      var n := |names| - 1;
      FirstSeenPrefix(names[..n], k);
      assert names[..n][..k] == names[..k];
    } else {
      assert names[..k] == names;
    }
  }

  /** `home_team = teams[0] if len(teams) > 0 else None`, and the same for
      `teams[1]`. */
  function HomeAway(names: seq<string>): (r: (Option<string>, Option<string>))
    ensures r.0.None? <==> |CleanTeams(names)| == 0
    ensures r.1.None? <==> |CleanTeams(names)| < 2
    ensures r.0.Some? && r.1.Some? ==> r.0.value != r.1.value
  {
    var teams := CleanTeams(names);
    (if |teams| > 0 then Some(teams[0]) else None, if |teams| > 1 then Some(teams[1]) else None)
  }

  lemma {:induction false} FirstSeenOfBlanks(names: seq<string>)
    requires forall i :: 0 <= i < |names| ==> names[i] == ""
    ensures FirstSeen(names) == []
    decreases |names|
  {
    if |names| > 0 {
      FirstSeenOfBlanks(names[..|names| - 1]);
    }
  }

  lemma FirstSeenAfterBlanks(names: seq<string>, k: nat)
    requires k < |names| && names[k] != ""
    requires forall i :: 0 <= i < k ==> names[i] == ""
    ensures |FirstSeen(names)| > 0 && FirstSeen(names)[0] == names[k]
  {
    var head := names[..k + 1];
    assert head[..k] == names[..k];
    FirstSeenOfBlanks(names[..k]);
    assert FirstSeen(head) == [names[k]];
    FirstSeenPrefix(names, k + 1);
  }

  /** The home team is the first name that is not blank. */
  lemma HomeIsFirstName(names: seq<string>, k: nat)
    requires k < |names| && Strip(names[k]) != ""
    requires forall i :: 0 <= i < k ==> Strip(names[i]) == ""
    ensures HomeAway(names).0 == Some(Strip(names[k]))
  {
    FirstSeenAfterBlanks(StripAll(names), k);
  }

  // ---------------------------------------------------------------------
  // Red cards

  /** One match event: its time text, score text, player, type and team. */
  datatype Event = Event(time: string, score: string, player: string, eventType: string, team: string)

  /** A row of the combined shots-and-cards frame (before numeric conversion). */
  datatype EventRow = EventRow(minute: string, team: string, player: string, eventType: string,
                               outcome: string, xg: real, psxg: real)

  predicate SendingOff(e: Event) {
    e.eventType == "Red Card" || e.eventType == "Second Yellow Card"
  }

  /** The longest run of digits at the start of `s`. */
  function LeadingDigits(s: string): (r: string)
    ensures |r| <= |s| && r == s[..|r|] && AllDigits(r)
    ensures |r| == |s| || !IsDigit(s[|r|])
  {
    if |s| > 0 && IsDigit(s[0]) then
      var rest := LeadingDigits(s[1..]);
      assert s[..|rest| + 1] == [s[0]] + rest;
      [s[0]] + rest
    else []
  }

  /** Position of the first digit of `s`. */
  function FirstDigit(s: string): (r: Option<nat>)
    ensures r.None? <==> forall i :: 0 <= i < |s| ==> !IsDigit(s[i])
    ensures r.Some? ==> r.value < |s| && IsDigit(s[r.value]) && forall i :: 0 <= i < r.value ==> !IsDigit(s[i])
  {
    if |s| == 0 then None
    else if IsDigit(s[0]) then Some(0)
    else match FirstDigit(s[1..])
      case None => None
      case Some(k) => Some(k + 1)
  }

  /** `r` is the first maximal run of digits in `s`, starting at `i`. */
  predicate FirstRunAt(s: string, i: int, r: string) {
    && 0 <= i && i + |r| <= |s| && s[i..i + |r|] == r
    && (forall j :: 0 <= j < i ==> !IsDigit(s[j]))
    && (i + |r| == |s| || !IsDigit(s[i + |r|]))
  }

  /** `str.extract(r'(\d+)').fillna('0')`: the first run of digits, `"0"`
      when there is none. Never empty, so the later `Minute == ''` clean-up
      removes nothing. */
  function Minute(s: string): (r: string)
    ensures |r| > 0 && AllDigits(r)
    ensures (forall i :: 0 <= i < |s| ==> !IsDigit(s[i])) ==> r == "0"
    ensures (exists i :: 0 <= i < |s| && IsDigit(s[i])) ==> exists i :: FirstRunAt(s, i, r)
  {
    match FirstDigit(s)
    case None => "0"
    case Some(i) =>
      var r := LeadingDigits(s[i..]);
      assert |r| > 0 by {
        assert s[i..][0] == s[i];
      }
      assert s[i..i + |r|] == s[i..][..|r|];
      assert i + |r| == |s| || s[i + |r|] == s[i..][|r|];
      assert FirstRunAt(s, i, r);
      r
  }

  /** A card row: minute from the time text, outcome "Red Card", no xG. */
  function CardRow(e: Event): (row: EventRow)
    ensures row.outcome == "Red Card" && row.xg == 0.0 && row.psxg == 0.0
    ensures row.team == e.team && row.player == e.player && row.eventType == e.eventType
    ensures row.minute == Minute(e.time)
  {
    EventRow(Minute(e.time), e.team, e.player, e.eventType, "Red Card", 0.0, 0.0)
  }

  /** The card rows of `events`, one per sending-off, in event order. */
  function CardRows(events: seq<Event>): seq<EventRow> {
    if |events| == 0 then []
    else
      var k := |events| - 1;
      CardRows(events[..k]) + (if SendingOff(events[k]) then [CardRow(events[k])] else [])
  }

  lemma {:induction false} CardRowsMembers(events: seq<Event>)
    ensures |CardRows(events)| <= |events|
    ensures forall row :: row in CardRows(events) ==> exists e :: e in events && SendingOff(e) && row == CardRow(e)
    ensures forall e :: e in events && SendingOff(e) ==> CardRow(e) in CardRows(events)
    decreases |events|
  {
    if |events| > 0 {
      var k := |events| - 1;
      CardRowsMembers(events[..k]);
      assert events == events[..k] + [events[k]];
    }
  }

  /** The red-card rows appended to the shots: one per sending-off, in event
      order. */
  function RedCards(events: seq<Event>): (r: seq<EventRow>)
    ensures |r| <= |events|
    ensures forall row :: row in r ==> exists e :: e in events && SendingOff(e) && row == CardRow(e)
    ensures forall e :: e in events && SendingOff(e) ==> CardRow(e) in r
  {
    CardRowsMembers(events);
    CardRows(events)
  }

  /** Events are turned into card rows one at a time, so the rows follow the
      event order with one row per sending-off. */
  lemma RedCardsAppend(a: seq<Event>, b: seq<Event>)
    ensures RedCards(a + b) == RedCards(a) + RedCards(b)
  {
    CardRowsAppend(a, b);
  }

  lemma {:induction false} CardRowsAppend(a: seq<Event>, b: seq<Event>)
    ensures CardRows(a + b) == CardRows(a) + CardRows(b)
    decreases |b|
  {
    if |b| > 0 {
      var k := |b| - 1;
      assert (a + b)[..|a + b| - 1] == a + b[..k];
      CardRowsAppend(a, b[..k]);
      assert CardRows(a + b) == CardRows(a + b[..k]) + (if SendingOff(b[k]) then [CardRow(b[k])] else []) by {
        assert (a + b)[|a + b| - 1] == b[k];
      }
    } else {
      assert a + b == a;
    }
  }

  /** Every card row is a sending-off: yellow cards, goals and substitutions
      never produce one, and every card row is marked "Red Card". */
  lemma RedCardsOnlySendingsOff(events: seq<Event>)
    ensures forall row :: row in RedCards(events) ==>
      row.outcome == "Red Card" && (row.eventType == "Red Card" || row.eventType == "Second Yellow Card")
  {
    forall row | row in RedCards(events)
      ensures row.outcome == "Red Card" && (row.eventType == "Red Card" || row.eventType == "Second Yellow Card")
    {
      var e :| e in events && SendingOff(e) && row == CardRow(e);
    }
  }

  // ---------------------------------------------------------------------
  // Season

  /** `datetime.strptime` raising on a non-empty date inside the outer `try`:
      the whole match is dropped. */
  datatype ScrapeError = UnparsableMatchDate

  /** The season column: from a non-empty match date by the August rule,
      otherwise `int(season.split("-")[0])`, `None` when that fails. */
  function ScrapeSeason(matchDate: Option<string>, seasonLabel: string): (r: Result<Option<int>, ScrapeError>)
    ensures matchDate.Some? && matchDate.value != "" ==>
      match ParseIsoDate(matchDate.value)
      case None => r == Failure(UnparsableMatchDate)
      case Some(d) => r.Success? && r.value.Some?
                      && MonthIndex(r.value.value, 8) <= MonthIndex(d.year, d.month) < MonthIndex(r.value.value + 1, 8)
    ensures matchDate.None? || matchDate.value == "" ==> r == Success(ParseInt(FieldBefore(seasonLabel, '-')))
  {
    if matchDate.Some? && matchDate.value != "" then
      match ParseIsoDate(matchDate.value)
      case None => Failure(UnparsableMatchDate)
      case Some(d) => Success(Some(SeasonOf(d.year, d.month)))
    else Success(ParseInt(FieldBefore(seasonLabel, '-')))
  }

  /** Without a date the season label's first year is used:
      `"2023-2024"` gives 2023. */
  lemma SeasonFromLabel(year: nat, rest: string)
    ensures ScrapeSeason(None, NatToString(year) + "-" + rest) == Success(Some(year))
  {
    var y := NatToString(year);
    var text := y + "-" + rest;
    assert '-' !in y;
    assert text[|y|] == '-' && text[..|y|] == y;
    assert FieldBefore(text, '-') == y;
    ParseIntNatToString(year);
  }

  /** A label opening with an ASCII separator U+001C to U+001F makes `int`
      raise, and the bare `except` stores no season. */
  lemma SeparatorLabelHasNoSeason(c: char, year: nat, rest: string)
    requires 28 <= c as int <= 31
    ensures ScrapeSeason(None, [c] + NatToString(year) + "-" + rest) == Success(None)
  {
    var y := [c] + NatToString(year);
    var text := y + "-" + rest;
    assert '-' !in y;
    assert text[|y|] == '-' && text[..|y|] == y;
    assert FieldBefore(text, '-') == y;
    ParseIntRejectsSeparator(c, year);
  }
}
