/** The two `_preprocess_matches` variants. The resimulated-shots model keeps
    the matches of a trailing window and annotates copies; the totals model
    keeps everything and annotates in place. Both take the reference date as
    the latest match date, the current season as the largest season (a
    missing season counting as 0), and write `days_from_ref = max(0, ref - date)`
    into every dated match. */
module Preprocess {
  import opened Wrappers
  import opened Records
  import opened MatchWeights

  /** The filtered (or full) match list and the metadata handed to the objective. */
  datatype Preprocessed = Preprocessed(matches: seq<Match>, meta: Metadata)

  /** `pd.DataFrame(matches)["match_date"]` on records none of which has a date. */
  datatype PreprocessError = MissingDateColumn

  /** A match survives `match_date >= now - days_ago`; an undated match becomes
      `NaT`, which compares false. `now` is a day number with a time-of-day
      fraction, as `pd.Timestamp.now()` is. */
  predicate InWindow(m: Match, now: real, daysAgo: int) {
    m.date.Some? && m.date.value as real >= now - daysAgo as real
  }

  /** The matches of the window, in their original order. */
  function Window(ms: seq<Match>, now: real, daysAgo: int): (r: seq<Match>)
    ensures |r| <= |ms|
  {
    if |ms| == 0 then []
    else
      var rest := Window(ms[..|ms| - 1], now, daysAgo);
      if InWindow(ms[|ms| - 1], now, daysAgo) then rest + [ms[|ms| - 1]] else rest
  }

  /** The window keeps exactly the matches dated inside it. */
  lemma {:induction false} WindowMembers(ms: seq<Match>, now: real, daysAgo: int)
    ensures forall m :: m in Window(ms, now, daysAgo) <==> m in ms && InWindow(m, now, daysAgo)
    decreases |ms|
  {
    if |ms| > 0 {
      WindowMembers(ms[..|ms| - 1], now, daysAgo);
      assert ms == ms[..|ms| - 1] + [ms[|ms| - 1]];
    }
  }

  /** The window filters match by match, so it keeps the original order and
      every repetition. */
  lemma {:induction false} WindowAppend(a: seq<Match>, b: seq<Match>, now: real, daysAgo: int)
    ensures Window(a + b, now, daysAgo) == Window(a, now, daysAgo) + Window(b, now, daysAgo)
    decreases |b|
  {
    if |b| > 0 {
      var k := |b| - 1;
      assert (a + b)[..|a + b| - 1] == a + b[..k];
      WindowAppend(a, b[..k], now, daysAgo);
      assert Window(a + b, now, daysAgo)
          == Window(a + b[..k], now, daysAgo) + (if InWindow(b[k], now, daysAgo) then [b[k]] else []) by {
        assert (a + b)[|a + b| - 1] == b[k];
      }
    } else {
      assert a + b == a;
    }
  }

  lemma WindowDated(ms: seq<Match>, now: real, daysAgo: int)
    ensures forall i :: 0 <= i < |Window(ms, now, daysAgo)| ==> Window(ms, now, daysAgo)[i].date.Some?
  {
    var kept := Window(ms, now, daysAgo);
    WindowMembers(ms, now, daysAgo);
    forall i | 0 <= i < |kept| ensures kept[i].date.Some? {
      assert kept[i] in kept;
    }
  }

  /** A window that reaches back past every match keeps the list as it is. */
  lemma {:induction false} WindowKeepsAll(ms: seq<Match>, now: real, daysAgo: int)
    requires forall m :: m in ms ==> InWindow(m, now, daysAgo)
    ensures Window(ms, now, daysAgo) == ms
    decreases |ms|
  {
    if |ms| > 0 {
      assert forall m :: m in ms[..|ms| - 1] ==> m in ms;
      WindowKeepsAll(ms[..|ms| - 1], now, daysAgo);
      assert ms == ms[..|ms| - 1] + [ms[|ms| - 1]];
    }
  }

  predicate Dated(m: Match) {
    m.date.Some?
  }

  /** `max(dates)` over the dated matches, none when there are none. */
  function MaxDate(ms: seq<Match>): (r: Option<int>)
    ensures r.None? <==> forall m :: m in ms ==> !Dated(m)
    ensures r.Some? ==> && (exists m :: m in ms && m.date == r)
                        && (forall m :: m in ms && Dated(m) ==> m.date.value <= r.value)
  {
    if |ms| == 0 then None
    else
      var last := ms[|ms| - 1];
      var rest := MaxDate(ms[..|ms| - 1]);
      assert ms == ms[..|ms| - 1] + [last];
      assert last in ms;
      if last.date.None? then rest
      else if rest.None? || rest.value < last.date.value then last.date
      else rest
  }

  /** `max(m.get('season', 0) for m in ms)`, none for an empty list. */
  function MaxSeason(ms: seq<Match>): (r: Option<int>)
    ensures r.None? <==> |ms| == 0
    ensures r.Some? ==> && (exists m :: m in ms && m.season.GetOr(0) == r.value)
                        && (forall m :: m in ms ==> m.season.GetOr(0) <= r.value)
  {
    if |ms| == 0 then None
    else
      var s := ms[|ms| - 1].season.GetOr(0);
      var rest := MaxSeason(ms[..|ms| - 1]);
      assert ms == ms[..|ms| - 1] + [ms[|ms| - 1]];
      if rest.None? || rest.value < s then Some(s) else rest
  }

  /** The reference date and current season of a match list. */
  function MetadataOf(ms: seq<Match>): Metadata {
    Metadata(MaxDate(ms), MaxSeason(ms))
  }

  /** Writes `days_from_ref` into a dated match when a reference date exists;
      anything else is left alone. */
  function Annotate(m: Match, referenceDate: Option<int>): (r: Match)
    ensures r.(daysFromRef := m.daysFromRef) == m
    ensures referenceDate.Some? && m.date.Some? ==> r.daysFromRef == Some(Max0(referenceDate.value - m.date.value))
    ensures referenceDate.None? || m.date.None? ==> r == m
  {
    if referenceDate.Some? && m.date.Some? then m.(daysFromRef := Some(Max0(referenceDate.value - m.date.value)))
    else m
  }

  function AnnotateAll(ms: seq<Match>, referenceDate: Option<int>): (r: seq<Match>)
    ensures |r| == |ms| && forall i :: 0 <= i < |ms| ==> r[i] == Annotate(ms[i], referenceDate)
  {
    seq(|ms|, i requires 0 <= i < |ms| => Annotate(ms[i], referenceDate))
  }

  /** Two lists whose matches differ at most in `days_from_ref`. */
  predicate SameButAnnotation(ms: seq<Match>, ns: seq<Match>) {
    |ms| == |ns| && forall i :: 0 <= i < |ms| ==> ns[i] == ms[i].(daysFromRef := ns[i].daysFromRef)
  }

  /** The metadata depends on dates and seasons only, never on annotations. */
  lemma {:induction false} MetadataIgnoresAnnotation(ms: seq<Match>, ns: seq<Match>)
    requires SameButAnnotation(ms, ns)
    ensures MetadataOf(ns) == MetadataOf(ms)
    decreases |ms|
  {
    if |ms| > 0 {
      var k := |ms| - 1;
      assert SameButAnnotation(ms[..k], ns[..k]);
      MetadataIgnoresAnnotation(ms[..k], ns[..k]);
      assert ns[k].date == ms[k].date && ns[k].season == ms[k].season;
    }
  }

  // ---------------------------------------------------------------------
  // Totals model: no window, annotation in place

  /** `TeamModel._preprocess_matches`: metadata of the whole list, and the
      list with every dated match annotated. */
  function PreprocessInPlace(ms: seq<Match>): (r: Preprocessed)
    ensures r.meta == MetadataOf(ms)
    ensures SameButAnnotation(ms, r.matches)
    ensures forall i :: 0 <= i < |ms| && ms[i].date.Some? ==>
      && r.meta.referenceDate.Some? && r.matches[i].daysFromRef.Some?
      && r.matches[i].daysFromRef.value + ms[i].date.value == r.meta.referenceDate.value
  {
    var meta := MetadataOf(ms);
    var out := AnnotateAll(ms, meta.referenceDate);
    MaxDateBounds(ms);
    Preprocessed(out, meta)
  }

  /** Every dated match lies on or before the latest date. */
  lemma MaxDateBounds(ms: seq<Match>)
    ensures forall i :: 0 <= i < |ms| && ms[i].date.Some? ==>
      MaxDate(ms).Some? && ms[i].date.value <= MaxDate(ms).value
  {
    forall i | 0 <= i < |ms| && ms[i].date.Some?
      ensures MaxDate(ms).Some? && ms[i].date.value <= MaxDate(ms).value {
      assert ms[i] in ms && Dated(ms[i]);
    }
  }

  /** Preprocessing an already-preprocessed list changes nothing: the same
      reference date, current season and `days_from_ref` values come out. */
  lemma PreprocessInPlaceIdempotent(ms: seq<Match>)
    ensures PreprocessInPlace(PreprocessInPlace(ms).matches) == PreprocessInPlace(ms)
  {
    var once := PreprocessInPlace(ms);
    MetadataIgnoresAnnotation(ms, once.matches);
    var ref := once.meta.referenceDate;
    forall i | 0 <= i < |ms| ensures Annotate(once.matches[i], ref) == once.matches[i] {
      assert once.matches[i] == Annotate(ms[i], ref);
    }
  }

  /** `p` annotates the dated list `ms`: only `days_from_ref` differs, and it
      is exactly the distance from the reference date. */
  predicate AnnotatedFromReference(ms: seq<Match>, p: Preprocessed) {
    && SameButAnnotation(ms, p.matches)
    && forall i :: 0 <= i < |ms| ==>
         && ms[i].date.Some? && p.meta.referenceDate.Some? && p.matches[i].daysFromRef.Some?
         && p.matches[i].daysFromRef.value + ms[i].date.value == p.meta.referenceDate.value
  }

  lemma InPlaceOfDated(ms: seq<Match>)
    requires forall i :: 0 <= i < |ms| ==> ms[i].date.Some?
    ensures AnnotatedFromReference(ms, PreprocessInPlace(ms))
  {
  }

  // ---------------------------------------------------------------------
  // Resimulated-shots model: trailing window, annotated copies

  /** `PSxGShotsTeamModel._preprocess_matches(matches, days_ago)`. Building the
      frame and reading its `match_date` column raises `KeyError` when no
      record has a date, an empty list included. Otherwise the window is kept
      in order, its metadata computed and every kept match annotated; as
      every kept match is dated and the reference is the latest date, each
      `days_from_ref` is exactly `ref - date`. */
  function PreprocessWindow(ms: seq<Match>, now: real, daysAgo: int): (r: Result<Preprocessed, PreprocessError>)
    ensures r.Failure? <==> forall m :: m in ms ==> !Dated(m)
    ensures r.Success? ==>
      var kept := Window(ms, now, daysAgo);
      r.value.meta == MetadataOf(kept) && AnnotatedFromReference(kept, r.value)
  {
    if MaxDate(ms).None? then Failure(MissingDateColumn)
    else
      var kept := Window(ms, now, daysAgo);
      WindowDated(ms, now, daysAgo);
      InPlaceOfDated(kept);
      Success(PreprocessInPlace(kept))
  }

  /** When the window reaches back past every match and every match is dated,
      the windowed variant agrees with the totals variant. */
  lemma WindowCoveringAllAgrees(ms: seq<Match>, now: real, daysAgo: int)
    requires |ms| > 0 && forall m :: m in ms ==> InWindow(m, now, daysAgo)
    ensures PreprocessWindow(ms, now, daysAgo) == Success(PreprocessInPlace(ms))
  {
    WindowKeepsAll(ms, now, daysAgo);
    assert ms[0] in ms;
    assert Dated(ms[0]);
  }

  /** A non-empty windowed result, fed back with the same clock and window,
      comes out unchanged. */
  lemma PreprocessWindowIdempotent(ms: seq<Match>, now: real, daysAgo: int)
    requires PreprocessWindow(ms, now, daysAgo).Success?
    requires |PreprocessWindow(ms, now, daysAgo).value.matches| > 0
    ensures PreprocessWindow(PreprocessWindow(ms, now, daysAgo).value.matches, now, daysAgo)
         == PreprocessWindow(ms, now, daysAgo)
  {
    var kept := Window(ms, now, daysAgo);
    var out := PreprocessWindow(ms, now, daysAgo).value;
    assert forall m :: m in out.matches ==> InWindow(m, now, daysAgo) by {
      WindowMembers(ms, now, daysAgo);
      AnnotationKeepsWindow(kept, out.matches, now, daysAgo);
    }
    WindowCoveringAllAgrees(out.matches, now, daysAgo);
    PreprocessInPlaceIdempotent(kept);
  }

  /** Annotating matches does not move them out of a window. */
  lemma AnnotationKeepsWindow(ms: seq<Match>, ns: seq<Match>, now: real, daysAgo: int)
    requires SameButAnnotation(ms, ns) && forall m :: m in ms ==> InWindow(m, now, daysAgo)
    ensures forall m :: m in ns ==> InWindow(m, now, daysAgo)
  {
    forall m | m in ns ensures InWindow(m, now, daysAgo) {
      var i :| 0 <= i < |ns| && ns[i] == m;
      assert ms[i] in ms;
    }
  }

  /** An empty match list makes the windowed variant raise. */
  lemma EmptyInputRaises(now: real, daysAgo: int)
    ensures PreprocessWindow([], now, daysAgo) == Failure(MissingDateColumn)
  {
  }

  /** The windowed variant as lines 197-204 of the source are written to
      handle it: no error for an input without dates, which yields an empty
      list and no metadata; otherwise the same result. */
  function PreprocessWindowTotal(ms: seq<Match>, now: real, daysAgo: int): (r: Preprocessed)
    ensures (forall m :: m in ms ==> !Dated(m)) ==> r == Preprocessed([], Metadata(None, None))
    ensures PreprocessWindow(ms, now, daysAgo).Success? ==> r == PreprocessWindow(ms, now, daysAgo).value
  {
    var kept := Window(ms, now, daysAgo);
    if |kept| == 0 then
      assert PreprocessInPlace(kept) == Preprocessed([], Metadata(None, None));
      Preprocessed([], Metadata(None, None))
    else
      assert Dated(kept[0]) && kept[0] in ms by {
        WindowMembers(ms, now, daysAgo);
        assert kept[0] in kept;
      }
      PreprocessInPlace(kept)
  }
}
