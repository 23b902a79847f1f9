/** The clip sync engine: the signed-in user's latest clip and history window
    fed by live subscriptions, and the submit, delete-one and clear-all
    operations against the user's clips collection. */
module Clips {
  import opened Wrappers
  import opened JsString
  import opened Types
  import Clipboard

  /** Documents read and batch-deleted per round of clear-all. */
  const PAGE_SIZE: nat := 500

  /** Device label written with every clip submitted from this client. */
  const DEVICE_LABEL: string := "web"

  /** A stored document of a clips collection. */
  datatype Doc = Doc(id: ClipId, data: ClipData)

  /** How a mutation fails, with the message useClips returns. */
  datatype SyncError = NotSignedIn | EmptyContent | DuplicateContent | ClearFailed | DeleteFailed
  {
    function Message(): string {
      match this
      case NotSignedIn => "未登录"
      case EmptyContent => "内容不能为空"
      case DuplicateContent => "短时间内重复内容"
      case ClearFailed => "清空历史失败"
      case DeleteFailed => "删除记录失败"
    }
  }

  /** `{ ok: true }` or `{ ok: false, error }`. */
  datatype SyncResult = Success | Failure(error: SyncError)

  /** How the promise returned by submit settles: with a result, or rejected
      because the remote create threw. */
  datatype Settled = Resolved(result: SyncResult) | Rejected

  function DocIds(docs: seq<Doc>): (r: set<ClipId>)
    ensures forall d :: d in docs ==> d.id in r
    ensures forall id :: id in r ==> exists d :: d in docs && d.id == id
  {
    set d | d in docs :: d.id
  }

  predicate DistinctIds(docs: seq<Doc>) {
    forall i, j :: 0 <= i < j < |docs| ==> docs[i].id != docs[j].id
  }

  /** `docs` without the documents whose id is in `ids`, order kept. */
  function Without(docs: seq<Doc>, ids: set<ClipId>): (r: seq<Doc>)
    ensures |r| <= |docs|
    ensures forall d :: d in r <==> d in docs && d.id !in ids
  {
    if docs == [] then []
    else if docs[0].id in ids then Without(docs[1..], ids)
    else [docs[0]] + Without(docs[1..], ids)
  }

  lemma {:induction false} WithoutKeepsDistinct(docs: seq<Doc>, ids: set<ClipId>)
    requires DistinctIds(docs)
    ensures DistinctIds(Without(docs, ids))
    decreases |docs|
  {
    if docs != [] {
      WithoutKeepsDistinct(docs[1..], ids);
      if docs[0].id !in ids {
        var rest := Without(docs[1..], ids);
        forall j | 0 <= j < |rest| ensures rest[j].id != docs[0].id {
          assert rest[j] in docs[1..];
        }
      }
    }
  }

  /** Deleting the ids of the first `k` documents of a list with distinct ids
      leaves exactly the rest of the list. */
  lemma {:induction false} WithoutPrefixIds(docs: seq<Doc>, k: nat)
    requires DistinctIds(docs) && k <= |docs|
    ensures Without(docs, DocIds(docs[..k])) == docs[k..]
    decreases |docs|
  {
    if k == 0 {
      WithoutNone(docs, DocIds(docs[..0]));
    } else {
      var ids := DocIds(docs[..k]);
      assert docs[0] in docs[..k];
      var tail := docs[1..];
      assert DocIds(tail[..k - 1]) + {docs[0].id} == ids by {
        assert docs[..k] == [docs[0]] + tail[..k - 1];
      }
      WithoutPrefixIds(tail, k - 1);
      WithoutIgnoresAbsent(tail, DocIds(tail[..k - 1]), docs[0].id);
    }
  }

  /** Removing ids none of the documents carry changes nothing. */
  lemma {:induction false} WithoutNone(docs: seq<Doc>, ids: set<ClipId>)
    requires forall d :: d in docs ==> d.id !in ids
    ensures Without(docs, ids) == docs
    decreases |docs|
  {
    if docs != [] {
      WithoutNone(docs[1..], ids);
    }
  }

  /** An extra id that no document carries makes no difference. */
  lemma {:induction false} WithoutIgnoresAbsent(docs: seq<Doc>, ids: set<ClipId>, extra: ClipId)
    requires forall d :: d in docs ==> d.id != extra
    ensures Without(docs, ids + {extra}) == Without(docs, ids)
    decreases |docs|
  {
    if docs != [] {
      WithoutIgnoresAbsent(docs[1..], ids, extra);
    }
  }

  /** `b` ends with `a`. */
  predicate IsSuffix(a: seq<Doc>, b: seq<Doc>) {
    |a| <= |b| && a == b[|b| - |a|..]
  }

  /** Number of batch commits clear-all makes for `n` documents. */
  function CeilPages(n: nat): nat {
    (n + PAGE_SIZE - 1) / PAGE_SIZE
  }

  /** A total of `pages` full pages and a last short page of `n` documents
      takes one commit per non-empty page. */
  lemma CeilPagesExact(total: nat, pages: nat, n: nat)
    requires n < PAGE_SIZE && total == pages * PAGE_SIZE + n
    ensures CeilPages(total) == pages + (if n == 0 then 0 else 1)
  {
    var q := pages + (if n == 0 then 0 else 1);
    var r := if n == 0 then PAGE_SIZE - 1 else n - 1;
    assert total + PAGE_SIZE - 1 == q * PAGE_SIZE + r;
    DivByPage(total + PAGE_SIZE - 1, q, r);
  }

  lemma DivByPage(x: nat, q: nat, r: nat)
    requires r < PAGE_SIZE && x == q * PAGE_SIZE + r
    ensures x / PAGE_SIZE == q
  {
  }

  /** The name the store gives its `k`-th new document. */
  function DocName(k: nat): ClipId {
    Clipboard.ToHex(k)
  }

  /** Different serial numbers give different names. */
  lemma DocNameInjective(j: nat, k: nat)
    requires j != k
    ensures DocName(j) != DocName(k)
  {
    if DocName(j) == DocName(k) {
      Clipboard.ToHexInjective(j, k);
    }
  }

  /** A collection's documents have distinct names, all drawn from `used`. */
  ghost predicate CollValid(docs: seq<Doc>, used: set<ClipId>) {
    DistinctIds(docs) && DocIds(docs) <= used
  }

  /** Appending a document under a name outside `used` keeps a collection
      valid once the name is added to `used`. */
  lemma AppendFreshKeepsValid(docs: seq<Doc>, used: set<ClipId>, d: Doc)
    requires CollValid(docs, used) && d.id !in used
    ensures CollValid(docs + [d], used + {d.id})
  {
    var c := docs + [d];
    forall i, j | 0 <= i < j < |c| ensures c[i].id != c[j].id {
      if j == |c| - 1 {
        assert c[i] in docs;
      }
    }
  }

  /** Validity survives growing `used` and removing documents. */
  lemma CollValidWeaken(docs: seq<Doc>, used: set<ClipId>, used': set<ClipId>, ids: set<ClipId>)
    requires CollValid(docs, used) && used <= used'
    ensures CollValid(docs, used') && CollValid(Without(docs, ids), used')
  {
    WithoutKeepsDistinct(docs, ids);
  }

  /** `after` is `before` with one document appended: holding `data`, under
      a name not used in `before`. */
  predicate AddedOne(before: seq<Doc>, after: seq<Doc>, data: ClipData) {
    |after| == |before| + 1 && after[..|before|] == before &&
    after[|before|].data == data && after[|before|].id !in DocIds(before)
  }

  /** The collection of `uid` in a store whose collections are `m`; a user
      with no documents has an empty one. */
  function CollIn(m: map<string, seq<Doc>>, uid: string): seq<Doc> {
    if uid in m then m[uid] else []
  }

  /** The remote document store: one clips collection per user. Every remote
      call takes the next slot of the fault oracle `fault` and fails when that
      slot says so. New documents are named by the hex form of a store-wide
      serial number, so names are never reused. */
  class ClipStore {
    var collections: map<string, seq<Doc>>
    var serial: nat
    /** Every name handed out so far. */
    ghost var used: set<ClipId>
    const fault: nat -> bool
    var calls: nat
    var commits: nat

    ghost predicate Valid()
      reads this`collections, this`serial, this`used
    {
      (forall u :: u in collections ==> CollValid(collections[u], used)) &&
      (forall k: nat :: serial <= k ==> DocName(k) !in used)
    }

    constructor (fault: nat -> bool)
      ensures Valid() && collections == map[] && this.fault == fault
      ensures serial == 0 && calls == 0 && commits == 0
    {
      collections := map[];
      serial := 0;
      used := {};
      this.fault := fault;
      calls := 0;
      commits := 0;
    }

    /** The documents of `uid`'s collection, in the store's order. */
    function Coll(uid: string): seq<Doc>
      reads this`collections
    {
      CollIn(collections, uid)
    }

    /** `addDoc`: append a new document under a fresh id. */
    method Add(uid: string, data: ClipData) returns (ok: bool, id: ClipId)
      requires Valid()
      modifies this
      ensures Valid() && calls == old(calls) + 1 && commits == old(commits)
      ensures ok == !old(fault(calls))
      ensures ok ==> id !in DocIds(old(Coll(uid)))
      ensures collections == if ok then old(collections)[uid := old(Coll(uid)) + [Doc(id, data)]] else old(collections)
    {
      ok := !fault(calls);
      calls := calls + 1;
      id := DocName(serial);
      if ok {
        var before := Coll(uid);
        AppendFreshKeepsValid(before, used, Doc(id, data));
        forall v | v in collections ensures CollValid(collections[v], used + {id}) {
          CollValidWeaken(collections[v], used, used + {id}, {});
        }
        forall k: nat | serial + 1 <= k ensures DocName(k) !in used + {id} {
          DocNameInjective(k, serial);
        }
        collections := collections[uid := before + [Doc(id, data)]];
        used := used + {id};
        serial := serial + 1;
      }
    }

    /** `deleteDoc`: remove the document with that id, if there is one. */
    method Delete(uid: string, id: ClipId) returns (ok: bool)
      requires Valid()
      modifies this
      ensures Valid() && calls == old(calls) + 1 && commits == old(commits)
      ensures ok == !old(fault(calls))
      ensures collections == if ok && uid in old(collections)
        then old(collections)[uid := Without(old(Coll(uid)), {id})] else old(collections)
    {
      ok := !fault(calls);
      calls := calls + 1;
      if ok && uid in collections {
        CollValidWeaken(collections[uid], used, used, {id});
        collections := collections[uid := Without(collections[uid], {id})];
      }
    }

    /** `getDocs(query(clips, limit(n)))`: the first `n` documents. */
    method GetPage(uid: string, n: nat) returns (ok: bool, page: seq<Doc>)
      modifies this`calls
      ensures calls == old(calls) + 1
      ensures ok == !fault(old(calls))
      ensures ok ==> page == Coll(uid)[..if |Coll(uid)| < n then |Coll(uid)| else n]
    {
      ok := !fault(calls);
      calls := calls + 1;
      var all := Coll(uid);
      page := all[..if |all| < n then |all| else n];
    }

    /** `writeBatch` with one `delete` per id, then `commit`: all or nothing. */
    method CommitBatchDelete(uid: string, ids: set<ClipId>) returns (ok: bool)
      requires Valid()
      modifies this
      ensures Valid() && calls == old(calls) + 1
      ensures ok == !old(fault(calls))
      ensures commits == if ok then old(commits) + 1 else old(commits)
      ensures collections == if ok && uid in old(collections)
        then old(collections)[uid := Without(old(Coll(uid)), ids)] else old(collections)
      ensures Coll(uid) == if ok then Without(old(Coll(uid)), ids) else old(Coll(uid))
      ensures forall v :: v != uid ==> Coll(v) == old(Coll(v))
    {
      ok := !fault(calls);
      calls := calls + 1;
      if ok {
        commits := commits + 1;
        if uid in collections {
          CollValidWeaken(collections[uid], used, used, ids);
          collections := collections[uid := Without(collections[uid], ids)];
        }
      }
    }

    /** No remote call numbered in [lo, hi) fails. */
    ghost predicate FaultFree(lo: int, hi: int) {
      forall k: nat :: lo <= k < hi ==> !fault(k)
    }

    lemma FaultFreeJoin(lo: int, mid: int, hi: int)
      requires FaultFree(lo, mid) && FaultFree(mid, hi)
      ensures FaultFree(lo, hi)
    {
    }

    /** One round of the clear-all loop: read up to PAGE_SIZE documents and,
        when the page is not empty, delete them in one batch. `n` is the size
        of the page read. */
    method ClearPage(uid: string) returns (ok: bool, n: nat)
      requires Valid()
      modifies this
      ensures Valid()
      ensures forall v :: v != uid ==> Coll(v) == old(Coll(v))
      ensures old(calls) < calls
      ensures ok ==>
        n == (if |old(Coll(uid))| < PAGE_SIZE then |old(Coll(uid))| else PAGE_SIZE) &&
        Coll(uid) == old(Coll(uid))[n..] && FaultFree(old(calls), calls) &&
        commits == old(commits) + (if n == 0 then 0 else 1)
      ensures !ok ==>
        Coll(uid) == old(Coll(uid)) && fault(calls - 1) && FaultFree(old(calls), calls - 1) &&
        commits == old(commits)
    {
      ghost var before := Coll(uid);
      var page;
      ok, page := GetPage(uid, PAGE_SIZE);
      n := |page|;
      if !ok {
        return;
      }
      assert page == before[..n];
      if n == 0 {
        assert before[0..] == before;
        return;
      }
      ghost var mid := calls;
      ok := CommitBatchDelete(uid, DocIds(page));
      if ok {
        WithoutPrefixIds(before, n);
        FaultFreeJoin(old(calls), mid, calls);
      }
    }

    /** The outcome of clear-all on `uid`'s collection, against the
        collections, call counter and commit counter before it: other users'
        collections are untouched and the collection keeps a suffix of its
        documents; no call before the last one failed, and the outcome `ok`
        says whether the last one succeeded; on success the collection is
        empty and one commit was made per page of PAGE_SIZE documents or
        part of one. */
    ghost predicate ClearedAll(uid: string, before: map<string, seq<Doc>>, calls0: nat, commits0: nat, ok: bool)
      reads this`collections, this`calls, this`commits
    {
      (forall v :: v != uid ==> Coll(v) == CollIn(before, v)) &&
      IsSuffix(Coll(uid), CollIn(before, uid)) &&
      calls0 < calls && FaultFree(calls0, calls - 1) &&
      (ok <==> !fault(calls - 1)) &&
      (ok ==> Coll(uid) == [] && commits == commits0 + CeilPages(|CollIn(before, uid)|))
    }

    /** The paging loop of `clearHistory()`: read up to PAGE_SIZE documents,
        delete them in one batch, and stop at an empty or short page. On
        success the collection is empty after ceil(n / PAGE_SIZE) commits; the
        first failing read or commit stops the loop, and pages committed
        before it stay deleted. */
    method DeleteAll(uid: string) returns (ok: bool)
      requires Valid()
      modifies this
      ensures Valid()
      ensures ClearedAll(uid, old(collections), old(calls), old(commits), ok)
    {
      ghost var start := Coll(uid);
      ghost var taken: nat := 0;
      ghost var pages: nat := 0;
      while true
        invariant Valid()
        invariant taken <= |start| && Coll(uid) == start[taken..]
        invariant taken == pages * PAGE_SIZE && commits == old(commits) + pages
        invariant forall v :: v != uid ==> Coll(v) == old(Coll(v))
        invariant old(calls) <= calls && FaultFree(old(calls), calls)
        decreases |start| - taken
      {
        ghost var mark := calls;
        var n;
        ok, n := ClearPage(uid);
        if !ok {
          FaultFreeJoin(old(calls), mark, calls - 1);
          return;
        }
        assert start[taken..][n..] == start[taken + n..];
        FaultFreeJoin(old(calls), mark, calls);
        if n < PAGE_SIZE {
          CeilPagesExact(|start|, pages, n);
          return;
        }
        taken := taken + n;
        pages := pages + 1;
      }
    }
  }

  /** The clip a document maps to (`{ id: doc.id, ...doc.data() }`). */
  function ToClip(d: Doc): (c: Clip)
    ensures c.id == d.id && c.content == d.data.content && c.hash == d.data.hash
    ensures c.deviceLabel == d.data.deviceLabel && c.createdAt == d.data.createdAt
  {
    Clip(d.id, d.data.content, d.data.hash, d.data.deviceLabel, d.data.createdAt)
  }

  function ToClips(docs: seq<Doc>): (r: seq<Clip>)
    ensures |r| == |docs| && forall i :: 0 <= i < |docs| ==> r[i] == ToClip(docs[i])
  {
    if docs == [] then [] else [ToClip(docs[0])] + ToClips(docs[1..])
  }

  /** The guard chain of submit: the error it reports before writing, if any. */
  function SubmitRejection(signedIn: bool, content: JsText, lastHash: Option<string>,
                           lastAt: Option<int>, now: int): (r: Option<SyncError>)
    ensures r == Some(NotSignedIn) <==> !signedIn
    ensures r == Some(EmptyContent) <==> signedIn && Clipboard.NormalizeContent(content) == []
    ensures r == Some(DuplicateContent) <==>
      signedIn && Clipboard.NormalizeContent(content) != [] &&
      Clipboard.ShouldSkipDuplicate(lastHash, Clipboard.HashOf(Clipboard.NormalizeContent(content)),
                                    lastAt, now, Clipboard.DEFAULT_WINDOW_MS)
    ensures r == Some(DuplicateContent) ==>
      lastHash.Some? && lastHash.value == Clipboard.HashOf(Clipboard.NormalizeContent(content))
    ensures r.None? <==>
      signedIn && Clipboard.NormalizeContent(content) != [] &&
      !Clipboard.ShouldSkipDuplicate(lastHash, Clipboard.HashOf(Clipboard.NormalizeContent(content)),
                                     lastAt, now, Clipboard.DEFAULT_WINDOW_MS)
  {
    var normalized := Clipboard.NormalizeContent(content);
    if !signedIn then Some(NotSignedIn)
    else if normalized == [] then Some(EmptyContent)
    else if Clipboard.ShouldSkipDuplicate(lastHash, Clipboard.HashOf(normalized), lastAt, now, Clipboard.DEFAULT_WINDOW_MS)
    then Some(DuplicateContent)
    else None
  }

  /** Once content is accepted at time `now` (non-zero, as any clock reading
      after 1970 is), submitting content with the same normalised form again
      within the window is refused as a duplicate; after the window it passes. */
  lemma ResubmitWithinWindowRefused(first: JsText, again: JsText, now: int, later: int)
    requires Clipboard.NormalizeContent(first) != [] && now != 0
    requires Clipboard.NormalizeContent(again) == Clipboard.NormalizeContent(first)
    ensures var h := Clipboard.HashOf(Clipboard.NormalizeContent(first));
      SubmitRejection(true, again, Some(h), Some(now), later)
        == if later - now <= Clipboard.DEFAULT_WINDOW_MS then Some(DuplicateContent) else None
  {
    Clipboard.HashShape(Clipboard.NormalizeContent(first));
  }

  /** Blank input is always refused as empty content, never as a duplicate. */
  lemma BlankInputRefused(content: JsText, lastHash: Option<string>, lastAt: Option<int>, now: int)
    requires AllWhitespace(content)
    ensures SubmitRejection(true, content, lastHash, lastAt, now) == Some(EmptyContent)
  {
    Clipboard.NormalizeEmptyIff(content);
  }

  /** The `useClips` hook: its state and operations for one mounted client. */
  class ClipSync {
    const store: ClipStore
    var uid: Option<string>
    var latest: Option<Clip>
    var history: seq<Clip>
    /** Handle of the live latest-clip query of the current user. */
    var latestHandle: Option<nat>
    /** `historyUnsub.current`: handle of the live history query, if any. */
    var historyHandle: Option<nat>
    var nextHandle: nat
    /** `lastHash.current` and `lastAt.current`: the last accepted submission. */
    var lastHash: Option<string>
    var lastAt: Option<int>

    ghost predicate Valid()
      reads this`uid, this`latestHandle, this`historyHandle, this`nextHandle
      reads store`collections, store`serial, store`used
    {
      store.Valid() &&
      (latestHandle.Some? <==> SignedIn(uid)) &&
      (latestHandle.Some? ==> latestHandle.value < nextHandle) &&
      (historyHandle.Some? ==> historyHandle.value < nextHandle)
    }

    /** Mounting the hook for `uid`: empty state, and the latest-clip query
        subscribed when a user is signed in. */
    constructor (store: ClipStore, uid: Option<string>)
      requires store.Valid()
      ensures Valid() && this.store == store && this.uid == uid
      ensures latest == None && history == [] && historyHandle == None
      ensures lastHash == None && lastAt == None
    {
      this.store := store;
      this.uid := uid;
      latest := None;
      history := [];
      historyHandle := None;
      lastHash := None;
      lastAt := None;
      if SignedIn(uid) {
        latestHandle := Some(0);
        nextHandle := 1;
      } else {
        latestHandle := None;
        nextHandle := 0;
      }
    }

    /** The signed-in user changes: the old latest-clip query is detached;
        with no user the latest clip is cleared, otherwise a new query starts.
        The history query and the dedup pair are left as they are. */
    method ChangeUser(newUid: Option<string>)
      requires Valid() && newUid != uid
      modifies this
      ensures Valid() && uid == newUid
      ensures latest == if !SignedIn(newUid) then None else old(latest)
      ensures latestHandle == if !SignedIn(newUid) then None else Some(old(nextHandle))
      ensures history == old(history) && historyHandle == old(historyHandle)
      ensures lastHash == old(lastHash) && lastAt == old(lastAt)
    {
      uid := newUid;
      if !SignedIn(newUid) {
        latestHandle := None;
        latest := None;
      } else {
        latestHandle := Some(nextHandle);
        nextHandle := nextHandle + 1;
      }
    }

    /** A snapshot of the latest-clip query arrives: its first document, or
        none. Snapshots of a detached query change nothing. */
    method OnLatestSnapshot(handle: nat, docs: seq<Doc>)
      requires Valid()
      modifies this`latest
      ensures Valid()
      ensures latest == if latestHandle != Some(handle) then old(latest)
                        else if docs == [] then None else Some(ToClip(docs[0]))
    {
      if latestHandle == Some(handle) {
        if docs == [] {
          latest := None;
        } else {
          latest := Some(ToClip(docs[0]));
        }
      }
    }

    /** `startHistory`: subscribe to the history window unless signed out or
        already subscribed. */
    method StartHistory()
      requires Valid()
      modifies this`historyHandle, this`nextHandle
      ensures Valid()
      ensures if !SignedIn(uid) || old(historyHandle).Some? then historyHandle == old(historyHandle) && nextHandle == old(nextHandle)
              else historyHandle == Some(old(nextHandle)) && nextHandle == old(nextHandle) + 1
    {
      if !SignedIn(uid) || historyHandle.Some? {
        return;
      }
      historyHandle := Some(nextHandle);
      nextHandle := nextHandle + 1;
    }

    /** `stopHistory`: detach the history query and empty the window, if
        subscribed; otherwise nothing happens. */
    method StopHistory()
      requires Valid()
      modifies this`historyHandle, this`history
      ensures Valid() && historyHandle == None
      ensures history == if old(historyHandle).Some? then [] else old(history)
    {
      if historyHandle.Some? {
        historyHandle := None;
        history := [];
      }
    }

    /** A snapshot of the history query arrives; only the live query's
        snapshots reach the window. */
    method OnHistorySnapshot(handle: nat, docs: seq<Doc>)
      requires Valid()
      modifies this`history
      ensures Valid()
      ensures history == if historyHandle == Some(handle) then ToClips(docs) else old(history)
    {
      if historyHandle == Some(handle) {
        history := ToClips(docs);
      }
    }

    /** `syncClip(content)` at clock reading `now`. The guard chain refuses
        without any write; otherwise the dedup pair is recorded first and the
        normalised clip is then added to the user's collection. If the add
        throws, the promise rejects and the dedup pair stays recorded. */
    method SyncClip(content: JsText, now: int) returns (s: Settled)
      requires Valid()
      modifies this`lastHash, this`lastAt, store
      ensures Valid()
      ensures var refusal := SubmitRejection(SignedIn(uid), content, old(lastHash), old(lastAt), now);
        refusal.Some? ==> s == Resolved(Failure(refusal.value)) && lastHash == old(lastHash) && lastAt == old(lastAt)
      ensures var refusal := SubmitRejection(SignedIn(uid), content, old(lastHash), old(lastAt), now);
        refusal.Some? ==>
          store.collections == old(store.collections) && store.calls == old(store.calls) &&
          store.commits == old(store.commits)
      ensures var refusal := SubmitRejection(SignedIn(uid), content, old(lastHash), old(lastAt), now);
        refusal.None? ==>
          lastHash == Some(Clipboard.HashOf(Clipboard.NormalizeContent(content))) && lastAt == Some(now) &&
          store.calls == old(store.calls) + 1 && store.commits == old(store.commits) &&
          (s == Resolved(Success) || s == Rejected) &&
          (s == Rejected <==> old(store.fault(store.calls)))
      ensures var refusal := SubmitRejection(SignedIn(uid), content, old(lastHash), old(lastAt), now);
        refusal.None? && s == Resolved(Success) ==>
          var normalized := Clipboard.NormalizeContent(content);
          AddedOne(old(store.Coll(uid.value)), store.Coll(uid.value),
                   ClipData(normalized, Clipboard.HashOf(normalized), DEVICE_LABEL, None))
      ensures SignedIn(uid) ==> forall v :: v != uid.value ==> store.Coll(v) == old(store.Coll(v))
      ensures s == Rejected ==> store.collections == old(store.collections)
    {
      ghost var refusal := SubmitRejection(SignedIn(uid), content, lastHash, lastAt, now);
      if !SignedIn(uid) {
        s := Resolved(Failure(NotSignedIn));
        assert refusal == Some(NotSignedIn);
      } else {
        var normalized := Clipboard.NormalizeContent(content);
        if normalized == [] {
          s := Resolved(Failure(EmptyContent));
          assert refusal == Some(EmptyContent);
        } else {
          var hash := Clipboard.HashContent(normalized);
          assert hash == Clipboard.HashOf(normalized);
          if Clipboard.ShouldSkipDuplicate(lastHash, hash, lastAt, now, Clipboard.DEFAULT_WINDOW_MS) {
            s := Resolved(Failure(DuplicateContent));
            assert refusal == Some(DuplicateContent);
          } else {
            assert refusal == None;
            s := Accept(uid.value, normalized, hash, now);
          }
        }
      }
    }

    /** The accepted path of `syncClip`: record the dedup pair, then add the
        clip; a failing add rejects the promise. */
    method Accept(u: string, normalized: JsText, hash: string, now: int) returns (s: Settled)
      requires Valid()
      modifies this`lastHash, this`lastAt, store
      ensures Valid()
      ensures lastHash == Some(hash) && lastAt == Some(now) && store.calls == old(store.calls) + 1
      ensures store.commits == old(store.commits)
      ensures s == Resolved(Success) || s == Rejected
      ensures s == Rejected <==> old(store.fault(store.calls))
      ensures s == Resolved(Success) ==> AddedOne(old(store.Coll(u)), store.Coll(u), ClipData(normalized, hash, DEVICE_LABEL, None))
      ensures forall v :: v != u ==> store.Coll(v) == old(store.Coll(v))
      ensures s == Rejected ==> store.collections == old(store.collections)
    {
      lastHash := Some(hash);
      lastAt := Some(now);
      var ok, id := store.Add(u, ClipData(normalized, hash, DEVICE_LABEL, None));
      s := if ok then Resolved(Success) else Rejected;
    }

    /** `deleteClip(id)`: delete that one document of the user's collection.
        Local state is never touched; the live queries catch up by themselves. */
    method DeleteClip(clipId: ClipId) returns (r: SyncResult)
      requires Valid()
      modifies store
      ensures Valid()
      ensures store.commits == old(store.commits)
      ensures !SignedIn(uid) ==>
        r == Failure(NotSignedIn) && store.collections == old(store.collections) && store.calls == old(store.calls)
      ensures SignedIn(uid) ==>
        store.calls == old(store.calls) + 1 &&
        (r == Success <==> !old(store.fault(store.calls))) &&
        (r != Success ==> r == Failure(DeleteFailed) && store.collections == old(store.collections)) &&
        (r == Success ==>
          store.Coll(uid.value) == Without(old(store.Coll(uid.value)), {clipId}) &&
          forall v :: v != uid.value ==> store.Coll(v) == old(store.Coll(v)))
    {
      if !SignedIn(uid) {
        return Failure(NotSignedIn);
      }
      var ok := store.Delete(uid.value, clipId);
      r := if ok then Success else Failure(DeleteFailed);
    }

    /** `clearHistory()`: read pages of up to PAGE_SIZE documents and delete
        each page in one batch, stopping at an empty or short page. On success
        the collection is empty, after ceil(n / PAGE_SIZE) commits, and the
        dedup pair, latest clip and history are reset. The first failing read
        or commit ends the call with ClearFailed and no local reset; pages
        committed before it stay deleted. */
    method ClearHistory() returns (r: SyncResult)
      requires Valid()
      modifies this`lastHash, this`lastAt, this`latest, this`history, store
      ensures Valid()
      ensures !SignedIn(uid) ==>
        r == Failure(NotSignedIn) && store.collections == old(store.collections) && store.calls == old(store.calls) &&
        store.commits == old(store.commits) &&
        lastHash == old(lastHash) && lastAt == old(lastAt) && latest == old(latest) && history == old(history)
      ensures SignedIn(uid) ==> r == Success || r == Failure(ClearFailed)
      ensures SignedIn(uid) ==>
        store.ClearedAll(uid.value, old(store.collections), old(store.calls), old(store.commits), r == Success)
      ensures r == Success ==> lastHash == None && lastAt == None && latest == None && history == []
      ensures r.Failure? ==> lastHash == old(lastHash) && lastAt == old(lastAt) && latest == old(latest) && history == old(history)
    {
      if !SignedIn(uid) {
        return Failure(NotSignedIn);
      }
      var ok := store.DeleteAll(uid.value);
      if !ok {
        return Failure(ClearFailed);
      }
      ResetLocal();
      return Success;
    }

    /** The local reset after a successful clear-all: the dedup pair, the
        latest clip and the history window are emptied. */
    method ResetLocal()
      modifies this`lastHash, this`lastAt, this`latest, this`history
      ensures lastHash == None && lastAt == None && latest == None && history == []
    {
      lastHash := None;
      lastAt := None;
      latest := None;
      history := [];
    }
  }
}
