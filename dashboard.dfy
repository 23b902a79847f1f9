/** The dashboard's list logic: which clips are shown where, the search
    filter, pinned-first ordering, the relative-time label, how many rows fit
    in the main list, and the optimistic hide with rollback around delete and
    clear-all. */
module Dashboard {
  import opened Wrappers
  import opened JsString
  import opened Types
  import opened Seqs

  /** Vertical gap between rows of the main history list, in pixels. */
  const MAIN_HISTORY_ROW_GAP_PX: int := 12

  /** Row height assumed before any row has been measured. */
  const INITIAL_ROW_HEIGHT_PX: int := 92

  /** `Number.MAX_SAFE_INTEGER`: the visible-row count before the first
      measurement, i.e. no limit. */
  const MAX_SAFE_INTEGER: int := 0x1F_FFFF_FFFF_FFFF

  const MINUTE_MS: int := 60 * 1000
  const HOUR_MS: int := 60 * 60 * 1000
  const DAY_MS: int := 24 * 60 * 60 * 1000

  // ---------------------------------------------------------------------
  // Sets of ids

  /** `toggleSetValue`: a new set with `value` removed if present, added
      otherwise. (Dafny sets are values, so the argument is never changed.) */
  function ToggleSetValue(s: set<ClipId>, value: ClipId): (r: set<ClipId>)
    ensures value in r <==> value !in s
    ensures forall x :: x != value ==> (x in r <==> x in s)
  {
    if value in s then s - {value} else s + {value}
  }

  /** Toggling the same value twice gives back the original set. */
  lemma ToggleTwice(s: set<ClipId>, value: ClipId)
    ensures ToggleSetValue(ToggleSetValue(s, value), value) == s
  {
    var once := ToggleSetValue(s, value);
    var twice := ToggleSetValue(once, value);
    assert forall x :: x in twice <==> x in s;
  }

  // ---------------------------------------------------------------------
  // Order-preserving selection

  /** `Array.prototype.filter`: the clips for which `keep` holds, in order. */
  function Select(clips: seq<Clip>, keep: Clip -> bool): (r: seq<Clip>)
    ensures |r| <= |clips|
    ensures forall c :: c in r <==> c in clips && keep(c)
    ensures IsSubsequence(r, clips)
  {
    if clips == [] then []
    else if keep(clips[0]) then [clips[0]] + Select(clips[1..], keep)
    else Select(clips[1..], keep)
  }

  /** `filter` keeps every copy of a kept clip and no copy of a dropped one. */
  lemma {:induction false} SelectCounts(clips: seq<Clip>, keep: Clip -> bool)
    ensures forall c :: multiset(Select(clips, keep))[c] == if keep(c) then multiset(clips)[c] else 0
  {
    if clips != [] {
      SelectCounts(clips[1..], keep);
      assert clips == [clips[0]] + clips[1..];
    }
  }

  // ---------------------------------------------------------------------
  // Derived lists

  /** `visibleHistory`: the history without the clips hidden optimistically. */
  function VisibleHistory(history: seq<Clip>, hiddenIds: set<ClipId>): (r: seq<Clip>)
    ensures forall c :: c in r <==> c in history && c.id !in hiddenIds
    ensures forall c :: multiset(r)[c] == if c.id !in hiddenIds then multiset(history)[c] else 0
    ensures IsSubsequence(r, history)
  {
    SelectCounts(history, (c: Clip) => c.id !in hiddenIds);
    Select(history, (c: Clip) => c.id !in hiddenIds)
  }

  /** Whether a clip matches the already trimmed and lower-cased query. */
  predicate Matches(c: Clip, query: JsText): (b: bool)
    ensures query == [] ==> b
    ensures b ==> |query| <= |c.content|
  {
    assert query == [] ==> OccursAt(ToLower(c.content), query, 0);
    Includes(ToLower(c.content), query)
  }

  /** A clip matches exactly when its lower-cased content contains the query
      at some index. */
  lemma MatchesIffContains(c: Clip, query: JsText)
    ensures Matches(c, query) <==> exists at :: OccursAt(ToLower(c.content), query, at)
  {
    assert Matches(c, query) == Includes(ToLower(c.content), query);
  }

  /** `filteredHistory`: the visible clips whose lower-cased content contains
      the trimmed, lower-cased query; every visible clip when that is empty. */
  function FilteredHistory(visible: seq<Clip>, searchQuery: JsText): (r: seq<Clip>)
    ensures var q := ToLower(Trim(searchQuery));
      q == [] ==> r == visible
    ensures var q := ToLower(Trim(searchQuery));
      forall c :: c in r <==> c in visible && (q == [] || Matches(c, q))
    ensures var q := ToLower(Trim(searchQuery));
      forall c :: multiset(r)[c] == if q == [] || Matches(c, q) then multiset(visible)[c] else 0
    ensures IsSubsequence(r, visible)
  {
    var q := ToLower(Trim(searchQuery));
    SubsequenceRefl(visible);
    SelectCounts(visible, (c: Clip) => Matches(c, q));
    if q == [] then visible else Select(visible, (c: Clip) => Matches(c, q))
  }

  /** Surrounding whitespace and letter case in the query make no difference. */
  lemma QueryTrimmedAndLowered(visible: seq<Clip>, searchQuery: JsText)
    ensures FilteredHistory(visible, searchQuery) == FilteredHistory(visible, ToLower(Trim(searchQuery)))
  {
    var q := ToLower(Trim(searchQuery));
    NormalQueryIsFixed(searchQuery);
    assert ToLower(Trim(q)) == q;
  }

  /** A trimmed, lower-cased query is left as it is by trimming and lower-casing. */
  lemma NormalQueryIsFixed(s: JsText)
    ensures var q := ToLower(Trim(s));
      ToLower(Trim(q)) == q
  {
    var t := Trim(s);
    var q := ToLower(t);
    TrimIsInnerSlice(s);
    LowerKeepsEnds(t);
    TrimOfTrimmed(q);
    LowerIdempotent(t);
  }

  /** Lower-casing keeps the first and last units non-whitespace. */
  lemma LowerKeepsEnds(s: JsText)
    requires s == [] || (!IsJsWhitespace(s[0]) && !IsJsWhitespace(s[|s| - 1]))
    ensures var l := ToLower(s);
      l == [] || (!IsJsWhitespace(l[0]) && !IsJsWhitespace(l[|l| - 1]))
  {
  }

  /** Lower-casing twice is lower-casing once. */
  lemma LowerIdempotent(s: JsText)
    ensures ToLower(ToLower(s)) == ToLower(s)
  {
  }

  /** `pinnedIds.has(id) ? 1 : 0`. */
  function PinKey(c: Clip, pinnedIds: set<ClipId>): (r: int)
    ensures 0 <= r <= 1
    ensures r == 1 <==> c.id in pinnedIds
  {
    if c.id in pinnedIds then 1 else 0
  }

  /** The comparator of `modalHistory`: `bPinned - aPinned`. */
  function PinCompare(a: Clip, b: Clip, pinnedIds: set<ClipId>): (r: int)
    ensures r < 0 <==> a.id in pinnedIds && b.id !in pinnedIds
    ensures r > 0 <==> a.id !in pinnedIds && b.id in pinnedIds
    ensures r == 0 <==> (a.id in pinnedIds <==> b.id in pinnedIds)
  {
    PinKey(b, pinnedIds) - PinKey(a, pinnedIds)
  }

  /** Inserts `x` before the first element it does not compare after. */
  function Insert(x: Clip, ys: seq<Clip>, pinnedIds: set<ClipId>): (r: seq<Clip>)
    ensures multiset(r) == multiset(ys) + multiset{x}
  {
    if ys == [] then [x]
    else if PinCompare(x, ys[0], pinnedIds) <= 0 then [x] + ys
    else assert ys == [ys[0]] + ys[1..]; [ys[0]] + Insert(x, ys[1..], pinnedIds)
  }

  /** A stable sort under PinCompare (`Array.prototype.sort` is stable):
      insertion of each element, front first, into the sorted rest. */
  function SortByPin(xs: seq<Clip>, pinnedIds: set<ClipId>): (r: seq<Clip>)
    ensures multiset(r) == multiset(xs)
  {
    if xs == [] then []
    else assert xs == [xs[0]] + xs[1..]; Insert(xs[0], SortByPin(xs[1..], pinnedIds), pinnedIds)
  }

  /** The pinned clips of `xs`, in order. */
  function Pinned(xs: seq<Clip>, pinnedIds: set<ClipId>): (r: seq<Clip>)
    ensures forall c :: c in r <==> c in xs && c.id in pinnedIds
    ensures IsSubsequence(r, xs)
  {
    if xs == [] then []
    else if xs[0].id in pinnedIds then [xs[0]] + Pinned(xs[1..], pinnedIds)
    else Pinned(xs[1..], pinnedIds)
  }

  /** The unpinned clips of `xs`, in order. */
  function Unpinned(xs: seq<Clip>, pinnedIds: set<ClipId>): (r: seq<Clip>)
    ensures forall c :: c in r <==> c in xs && c.id !in pinnedIds
    ensures IsSubsequence(r, xs)
  {
    if xs == [] then []
    else if xs[0].id !in pinnedIds then [xs[0]] + Unpinned(xs[1..], pinnedIds)
    else Unpinned(xs[1..], pinnedIds)
  }

  /** Together the two groups hold every clip exactly as often as `xs`. */
  lemma {:induction false} PinGroupsArePermutation(xs: seq<Clip>, pinnedIds: set<ClipId>)
    ensures multiset(Pinned(xs, pinnedIds)) + multiset(Unpinned(xs, pinnedIds)) == multiset(xs)
  {
    if xs != [] {
      PinGroupsArePermutation(xs[1..], pinnedIds);
      assert xs == [xs[0]] + xs[1..];
    }
  }

  /** `modalHistory`: the filtered list sorted pinned-first. */
  function ModalHistory(filtered: seq<Clip>, pinnedIds: set<ClipId>): (r: seq<Clip>)
    ensures multiset(r) == multiset(filtered)
    ensures r == Pinned(filtered, pinnedIds) + Unpinned(filtered, pinnedIds)
  {
    SortByPinPartitions(filtered, pinnedIds);
    SortByPin(filtered, pinnedIds)
  }

  /** An unpinned clip goes after all pinned ones and before the unpinned. */
  lemma {:induction false} InsertUnpinned(x: Clip, ps: seq<Clip>, us: seq<Clip>, pinnedIds: set<ClipId>)
    requires x.id !in pinnedIds
    requires forall c :: c in ps ==> c.id in pinnedIds
    requires forall c :: c in us ==> c.id !in pinnedIds
    ensures Insert(x, ps + us, pinnedIds) == ps + ([x] + us)
  {
    if ps == [] {
      assert ps + us == us;
      assert ps + ([x] + us) == [x] + us;
    } else {
      assert (ps + us)[0] == ps[0];
      assert (ps + us)[1..] == ps[1..] + us;
      InsertUnpinned(x, ps[1..], us, pinnedIds);
    }
  }

  /** The sort gives exactly the pinned clips, then the unpinned ones, each
      group in its original order. */
  lemma {:induction false} SortByPinPartitions(xs: seq<Clip>, pinnedIds: set<ClipId>)
    ensures SortByPin(xs, pinnedIds) == Pinned(xs, pinnedIds) + Unpinned(xs, pinnedIds)
  {
    if xs != [] {
      SortByPinPartitions(xs[1..], pinnedIds);
      SortStep(xs, pinnedIds);
    }
  }

  /** One insertion step keeps the sorted rest split into its two groups. */
  lemma {:induction false} SortStep(xs: seq<Clip>, pinnedIds: set<ClipId>)
    requires xs != []
    requires SortByPin(xs[1..], pinnedIds) == Pinned(xs[1..], pinnedIds) + Unpinned(xs[1..], pinnedIds)
    ensures SortByPin(xs, pinnedIds) == Pinned(xs, pinnedIds) + Unpinned(xs, pinnedIds)
  {
    var x := xs[0];
    var ps, us := Pinned(xs[1..], pinnedIds), Unpinned(xs[1..], pinnedIds);
    if x.id in pinnedIds {
      InsertPinnedGroups(x, ps, us, pinnedIds);
    } else {
      InsertUnpinned(x, ps, us, pinnedIds);
    }
  }

  /** A pinned clip inserted into the two groups joins the front group. */
  lemma InsertPinnedGroups(x: Clip, ps: seq<Clip>, us: seq<Clip>, pinnedIds: set<ClipId>)
    requires x.id in pinnedIds
    ensures Insert(x, ps + us, pinnedIds) == ([x] + ps) + us
  {
    InsertPinned(x, ps + us, pinnedIds);
    assert [x] + (ps + us) == ([x] + ps) + us;
  }

  /** A pinned clip goes in front. */
  lemma InsertPinned(x: Clip, ys: seq<Clip>, pinnedIds: set<ClipId>)
    requires x.id in pinnedIds
    ensures Insert(x, ys, pinnedIds) == [x] + ys
  {
  }

  /** `modalHistory` is a permutation of the filtered list with every pinned
      clip ahead of every unpinned one, keeping the order within each group. */
  lemma ModalHistoryPinnedFirst(filtered: seq<Clip>, pinnedIds: set<ClipId>)
    ensures var m := ModalHistory(filtered, pinnedIds);
      var k := |Pinned(filtered, pinnedIds)|;
      m == Pinned(filtered, pinnedIds) + Unpinned(filtered, pinnedIds) &&
      multiset(m) == multiset(filtered) &&
      (forall i :: 0 <= i < k ==> m[i].id in pinnedIds) &&
      (forall i :: k <= i < |m| ==> m[i].id !in pinnedIds)
  {
    GroupsSplit(Pinned(filtered, pinnedIds), Unpinned(filtered, pinnedIds), pinnedIds);
  }

  /** A pinned group followed by an unpinned group is pinned exactly up to
      the length of the first. */
  lemma GroupsSplit(ps: seq<Clip>, us: seq<Clip>, pinnedIds: set<ClipId>)
    requires forall c :: c in ps ==> c.id in pinnedIds
    requires forall c :: c in us ==> c.id !in pinnedIds
    ensures forall i :: 0 <= i < |ps| ==> (ps + us)[i].id in pinnedIds
    ensures forall i :: |ps| <= i < |ps + us| ==> (ps + us)[i].id !in pinnedIds
  {
    forall i | 0 <= i < |ps| ensures (ps + us)[i].id in pinnedIds {
      assert (ps + us)[i] == ps[i] && ps[i] in ps;
    }
    forall i | |ps| <= i < |ps + us| ensures (ps + us)[i].id !in pinnedIds {
      assert (ps + us)[i] == us[i - |ps|] && us[i - |ps|] in us;
    }
  }

  /** `mainHistory`: the visible history without the clip shown as latest. */
  function MainHistory(visible: seq<Clip>, latest: Option<Clip>): (r: seq<Clip>)
    ensures latest.None? ==> r == visible
    ensures forall c :: c in r <==> c in visible && (latest.None? || c.id != latest.value.id)
    ensures forall c :: multiset(r)[c] == if latest.None? || c.id != latest.value.id then multiset(visible)[c] else 0
    ensures IsSubsequence(r, visible)
  {
    SubsequenceRefl(visible);
    if latest.None? then visible
    else
      SelectCounts(visible, (c: Clip) => c.id != latest.value.id);
      Select(visible, (c: Clip) => c.id != latest.value.id)
  }

  /** `visibleMainHistory`: the first `max(0, min(len, count))` clips. */
  function VisibleMainHistory(main: seq<Clip>, visibleCount: int): (r: seq<Clip>)
    ensures |r| == (if visibleCount < 0 then 0 else if visibleCount < |main| then visibleCount else |main|)
    ensures r == main[..|r|]
  {
    main[..if visibleCount < 0 then 0 else if visibleCount < |main| then visibleCount else |main|]
  }

  /** `totalClips`: the visible history's length, but at least one when a
      latest clip exists. */
  function TotalClips(visible: seq<Clip>, latest: Option<Clip>): (r: nat)
    ensures r >= |visible| && (latest.Some? ==> r >= 1)
    ensures r == |visible| || (r == 1 && visible == [] && latest.Some?)
  {
    if latest.Some? && |visible| < 1 then 1 else |visible|
  }

  // ---------------------------------------------------------------------
  // Relative time

  /** What `formatHistoryTime` shows. */
  datatype TimeLabel =
    | JustNow                // "刚刚"
    | MinutesAgo(n: int)     // "n 分钟前"
    | HoursAgo(n: int)       // "n 小时前"
    | OnDate(at: Timestamp)  // the creation date in the browser's locale

  /** `formatHistoryTime` for a clip created at `createdAt` (None while the
      server timestamp is pending), read at clock `now`. */
  function FormatHistoryTime(createdAt: Option<Timestamp>, now: int): (r: TimeLabel)
    ensures createdAt.None? ==> r == JustNow
    ensures createdAt.Some? ==>
      var age := now - createdAt.value;
      (r == JustNow <==> age < MINUTE_MS) &&
      (r.MinutesAgo? <==> MINUTE_MS <= age < HOUR_MS) &&
      (r.HoursAgo? <==> HOUR_MS <= age < DAY_MS) &&
      (r.OnDate? <==> DAY_MS <= age) &&
      (r.MinutesAgo? ==> 1 <= r.n <= 59 && r.n * MINUTE_MS <= age < (r.n + 1) * MINUTE_MS) &&
      (r.HoursAgo? ==> 1 <= r.n <= 23 && r.n * HOUR_MS <= age < (r.n + 1) * HOUR_MS) &&
      (r.OnDate? ==> r.at == createdAt.value)
  {
    if createdAt.None? then JustNow
    else
      var age := now - createdAt.value;
      if age < MINUTE_MS then JustNow
      else if age < HOUR_MS then
        var m := age / MINUTE_MS;
        MinutesAgo(if m < 1 then 1 else m)
      else if age < DAY_MS then HoursAgo(age / HOUR_MS)
      else OnDate(createdAt.value)
  }

  /** `formatLatestTime`: "just now" when there is no latest clip. */
  function FormatLatestTime(latest: Option<Clip>, now: int): (r: TimeLabel)
    ensures latest.None? ==> r == JustNow
    ensures latest.Some? ==> r == FormatHistoryTime(latest.value.createdAt, now)
  {
    if latest.None? then JustNow else FormatHistoryTime(latest.value.createdAt, now)
  }

  // ---------------------------------------------------------------------
  // Rows that fit

  /** The row count `recalculateMainHistoryVisibleCount` settles on for a
      list of height `available`, rows of height `rowHeight` and `len` clips. */
  function FittingRows(available: int, rowHeight: int, len: nat): (r: nat)
    ensures r <= len
    ensures available <= 0 || rowHeight <= 0 ==> r == len
    ensures available > 0 && rowHeight > 0 && r < len ==>
      (r + 1) * (rowHeight + MAIN_HISTORY_ROW_GAP_PX) - MAIN_HISTORY_ROW_GAP_PX > available
    ensures available > 0 && rowHeight > 0 ==>
      r * (rowHeight + MAIN_HISTORY_ROW_GAP_PX) - MAIN_HISTORY_ROW_GAP_PX <= available
  {
    if available <= 0 || rowHeight <= 0 then len
    else
      var count := (available + MAIN_HISTORY_ROW_GAP_PX) / (rowHeight + MAIN_HISTORY_ROW_GAP_PX);
      if count < len then count else len
  }

  /** A 220-pixel list with 92-pixel rows shows two rows. */
  lemma FittingRowsExample()
    ensures FittingRows(220, 92, 5) == 2
    ensures FittingRows(0, 92, 5) == 5
  {
  }

  // ---------------------------------------------------------------------
  // Page state

  /** The dashboard's own state: optimistic hides, pins, the search box, the
      copied-row highlights, the tooltip and the main list's row budget. */
  class DashboardState {
    var hiddenIds: set<ClipId>
    var pinnedIds: set<ClipId>
    var searchQuery: JsText
    var historyCopiedId: Option<ClipId>
    var modalCopiedId: Option<ClipId>
    var tooltipShown: bool
    /** `mainHistoryRowHeightRef.current`: last measured row height. */
    var rowHeight: int
    /** `mainHistoryVisibleCount`. */
    var visibleCount: int

    constructor ()
      ensures hiddenIds == {} && pinnedIds == {} && searchQuery == []
      ensures historyCopiedId == None && modalCopiedId == None && !tooltipShown
      ensures rowHeight == INITIAL_ROW_HEIGHT_PX && visibleCount == MAX_SAFE_INTEGER
    {
      hiddenIds := {};
      pinnedIds := {};
      searchQuery := [];
      historyCopiedId := None;
      modalCopiedId := None;
      tooltipShown := false;
      rowHeight := INITIAL_ROW_HEIGHT_PX;
      visibleCount := MAX_SAFE_INTEGER;
    }

    /** The pin button of a row. */
    method TogglePin(id: ClipId)
      modifies this`pinnedIds
      ensures pinnedIds == ToggleSetValue(old(pinnedIds), id)
    {
      pinnedIds := ToggleSetValue(pinnedIds, id);
    }

    /** `recalculateMainHistoryVisibleCount`. Nothing happens without a list
        element; a first row of positive height updates the remembered row
        height; the count becomes the number of rows that fit. */
    method Recalculate(hasList: bool, firstRowHeight: Option<int>, available: int, mainLen: nat)
      modifies this`rowHeight, this`visibleCount
      ensures !hasList ==> rowHeight == old(rowHeight) && visibleCount == old(visibleCount)
      ensures hasList ==>
        rowHeight == (if firstRowHeight.Some? && firstRowHeight.value > 0 then firstRowHeight.value else old(rowHeight)) &&
        visibleCount == FittingRows(available, rowHeight, mainLen)
    {
      if !hasList {
        return;
      }
      if firstRowHeight.Some? && firstRowHeight.value > 0 {
        rowHeight := firstRowHeight.value;
      }
      if available <= 0 || rowHeight <= 0 {
        visibleCount := mainLen;
        return;
      }
      var count := (available + MAIN_HISTORY_ROW_GAP_PX) / (rowHeight + MAIN_HISTORY_ROW_GAP_PX);
      visibleCount := if count < 0 then 0 else if count < mainLen then count else mainLen;
    }

    /** First half of `handleDeleteClip`, before the remote call: hide the
        row, unpin it, and drop highlights and tooltip that point at it. */
    method BeginDelete(id: ClipId) returns (wasPinned: bool)
      modifies this`hiddenIds, this`pinnedIds, this`modalCopiedId, this`historyCopiedId, this`tooltipShown
      ensures wasPinned == (id in old(pinnedIds))
      ensures hiddenIds == old(hiddenIds) + {id} && pinnedIds == old(pinnedIds) - {id}
      ensures modalCopiedId == if old(modalCopiedId) == Some(id) then None else old(modalCopiedId)
      ensures historyCopiedId == if old(historyCopiedId) == Some(id) then None else old(historyCopiedId)
      ensures !tooltipShown
    {
      wasPinned := id in pinnedIds;
      if id !in hiddenIds {
        hiddenIds := hiddenIds + {id};
      }
      if id in pinnedIds {
        pinnedIds := pinnedIds - {id};
      }
      if modalCopiedId == Some(id) {
        modalCopiedId := None;
      }
      if historyCopiedId == Some(id) {
        historyCopiedId := None;
      }
      tooltipShown := false;
    }

    /** Second half of `handleDeleteClip`, once the remote call settles: on
        failure the row is shown again and re-pinned if it was pinned. */
    method FinishDelete(id: ClipId, wasPinned: bool, ok: bool)
      modifies this`hiddenIds, this`pinnedIds
      ensures ok ==> hiddenIds == old(hiddenIds) && pinnedIds == old(pinnedIds)
      ensures !ok ==> hiddenIds == old(hiddenIds) - {id}
      ensures !ok ==> pinnedIds == if wasPinned then old(pinnedIds) + {id} else old(pinnedIds)
    {
      if ok {
        return;
      }
      if id in hiddenIds {
        hiddenIds := hiddenIds - {id};
      }
      if wasPinned && id !in pinnedIds {
        pinnedIds := pinnedIds + {id};
      }
    }

    /** `handleDeleteClip` with nothing else happening during the remote
        call, whose outcome is `ok`. Success leaves the row hidden and
        unpinned; failure restores the pins, and the hidden set too unless
        the row was already hidden. */
    method HandleDeleteClip(id: ClipId, ok: bool)
      modifies this`hiddenIds, this`pinnedIds, this`modalCopiedId, this`historyCopiedId, this`tooltipShown
      ensures ok ==> id in hiddenIds && id !in pinnedIds
      ensures ok ==> hiddenIds == old(hiddenIds) + {id} && pinnedIds == old(pinnedIds) - {id}
      ensures !ok ==> pinnedIds == old(pinnedIds) && hiddenIds == old(hiddenIds) - {id}
      ensures !ok && id !in old(hiddenIds) ==> hiddenIds == old(hiddenIds)
      ensures modalCopiedId == if old(modalCopiedId) == Some(id) then None else old(modalCopiedId)
      ensures historyCopiedId == if old(historyCopiedId) == Some(id) then None else old(historyCopiedId)
      ensures !tooltipShown
    {
      var wasPinned := BeginDelete(id);
      FinishDelete(id, wasPinned, ok);
    }

    /** First half of `handleClearAll`: hide every visible row, clear the
        search box, the pins and the highlights. Returns the ids it hid. */
    method BeginClearAll(history: seq<Clip>) returns (idsToHide: set<ClipId>)
      modifies this`hiddenIds, this`pinnedIds, this`searchQuery, this`modalCopiedId, this`historyCopiedId
      ensures idsToHide == ClipIds(VisibleHistory(history, old(hiddenIds)))
      ensures hiddenIds == old(hiddenIds) + idsToHide
      ensures pinnedIds == {} && searchQuery == [] && modalCopiedId == None && historyCopiedId == None
    {
      idsToHide := ClipIds(VisibleHistory(history, hiddenIds));
      hiddenIds := hiddenIds + idsToHide;
      searchQuery := [];
      pinnedIds := {};
      historyCopiedId := None;
      modalCopiedId := None;
    }

    /** Second half of `handleClearAll`: on failure un-hide exactly the ids
        hidden by the first half. Pins stay cleared. */
    method FinishClearAll(idsToHide: set<ClipId>, ok: bool)
      modifies this`hiddenIds
      ensures hiddenIds == if ok then old(hiddenIds) else old(hiddenIds) - idsToHide
    {
      if !ok {
        hiddenIds := hiddenIds - idsToHide;
      }
    }

    /** `handleClearAll` with nothing else happening during the remote call.
        Success leaves no visible row; failure gives back the hidden set as it
        was, while pins and search stay cleared either way. */
    method HandleClearAll(history: seq<Clip>, ok: bool)
      modifies this`hiddenIds, this`pinnedIds, this`searchQuery, this`modalCopiedId, this`historyCopiedId
      ensures ok ==> VisibleHistory(history, hiddenIds) == []
      ensures ok ==> hiddenIds == old(hiddenIds) + ClipIds(VisibleHistory(history, old(hiddenIds)))
      ensures !ok ==> hiddenIds == old(hiddenIds)
      ensures pinnedIds == {} && searchQuery == [] && modalCopiedId == None && historyCopiedId == None
    {
      var ids := BeginClearAll(history);
      FinishClearAll(ids, ok);
      HiddenVisibleDisjoint(history, old(hiddenIds));
      if ok {
        ClearedLeavesNothingVisible(history, old(hiddenIds), hiddenIds);
      }
    }
  }

  /** No visible clip is hidden, so the ids clear-all hides were not hidden. */
  lemma HiddenVisibleDisjoint(history: seq<Clip>, hiddenIds: set<ClipId>)
    ensures hiddenIds * ClipIds(VisibleHistory(history, hiddenIds)) == {}
    ensures (hiddenIds + ClipIds(VisibleHistory(history, hiddenIds))) - ClipIds(VisibleHistory(history, hiddenIds)) == hiddenIds
  {
    var ids := ClipIds(VisibleHistory(history, hiddenIds));
    forall id | id in ids ensures id !in hiddenIds {
      var c :| c in VisibleHistory(history, hiddenIds) && c.id == id;
    }
  }

  /** Once every visible id is hidden, nothing is visible. */
  lemma ClearedLeavesNothingVisible(history: seq<Clip>, hiddenIds: set<ClipId>, after: set<ClipId>)
    requires after == hiddenIds + ClipIds(VisibleHistory(history, hiddenIds))
    ensures VisibleHistory(history, after) == []
  {
    var v := VisibleHistory(history, after);
    if v != [] {
      assert false;
    }
  }
}
