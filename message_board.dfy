/**
 * The anonymous message board (`messageboard-project/routes/api.js`): an
 * in-memory `Map` from board name to a board whose `threads` `Map` goes
 * from thread id to thread, each thread holding a list of replies.
 *
 * A board's threads are kept as a sequence in the `Map`'s insertion order
 * (the order `threads.values()` yields them), with distinct ids. A request
 * field that is absent is `None`; `generateId()` and `new Date()` are
 * parameters (the id and the time in milliseconds).
 */
module MessageBoard {
  import opened Wrappers
  import opened Sorting

  datatype Reply = Reply(id: string, text: string, createdOn: nat, deletePassword: string, reported: bool)

  datatype Thread = Thread(id: string, text: string, createdOn: nat, bumpedOn: nat, reported: bool,
                           deletePassword: string, replies: seq<Reply>)

  /** What a reply shows to readers: no password, no report flag. */
  datatype ReplyView = ReplyView(id: string, text: string, createdOn: nat)

  /** What a thread shows to readers: no password, no report flag. */
  datatype ThreadView = ThreadView(id: string, text: string, createdOn: nat, bumpedOn: nat, replies: seq<ReplyView>)

  datatype Response =
    | Status(code: nat, error: string)   // res.status(code).json({ error })
    | Redirect(location: string)
    | Send(text: string)
    | ThreadList(threads: seq<ThreadView>)
    | ThreadDetail(thread: ThreadView)

  /** The text a soft-deleted reply keeps. */
  const Deleted: string := "[deleted]"

  /** A request field that JavaScript reads as truthy: present and not the empty string. */
  predicate Present(field: Option<string>) {
    field.Some? && field.value != ""
  }

  ghost predicate DistinctThreadIds(ts: seq<Thread>) {
    forall i, j :: 0 <= i < j < |ts| ==> ts[i].id != ts[j].id
  }

  function BumpKey(t: Thread): int { t.bumpedOn }

  function CreatedKey(r: Reply): int { r.createdOn }

  // ---------------------------------------------------------------------
  // Map operations on a board's threads
  // ---------------------------------------------------------------------

  /** `boards` after `getBoard(name)`: an empty board is added only when none exists. */
  function WithBoard(boards: map<string, seq<Thread>>, name: string): (r: map<string, seq<Thread>>)
    ensures r.Keys == boards.Keys + {name}
    ensures forall b :: b in boards ==> r[b] == boards[b]
    ensures name !in boards ==> r[name] == []
  {
    if name in boards then boards else boards[name := []]
  }

  /** `threads.get(id)`: the position of the thread filed under `id`; an absent id finds nothing. */
  function Lookup(ts: seq<Thread>, id: Option<string>): (k: Option<nat>)
    ensures k.Some? ==> k.value < |ts| && id == Some(ts[k.value].id)
    ensures k.None? ==> forall j :: 0 <= j < |ts| ==> id != Some(ts[j].id)
    decreases |ts|
  {
    if |ts| == 0 then None
    else if id == Some(ts[0].id) then Some(0)
    else match Lookup(ts[1..], id)
      case None => None
      case Some(k) => Some(k + 1)
  }

  /** `threads.set(t.id, t)`: replace the thread filed under the same id where it stands,
      or append `t` when the id is new. */
  function SetThread(ts: seq<Thread>, t: Thread): (r: seq<Thread>)
    ensures Lookup(ts, Some(t.id)).Some? ==> r == ts[Lookup(ts, Some(t.id)).value := t]
    ensures Lookup(ts, Some(t.id)).None? ==> r == ts + [t]
  {
    match Lookup(ts, Some(t.id))
    case Some(k) => ts[k := t]
    case None => ts + [t]
  }

  /** Filing a thread keeps ids distinct, makes it findable under its id, and leaves the
      thread filed under every other id where it was. */
  lemma SetThreadFiles(ts: seq<Thread>, t: Thread)
    requires DistinctThreadIds(ts)
    ensures var r := SetThread(ts, t);
      && DistinctThreadIds(r)
      && Lookup(r, Some(t.id)).Some? && r[Lookup(r, Some(t.id)).value] == t
      && forall id :: id != Some(t.id) ==> Lookup(r, id) == Lookup(ts, id)
  {
    var r := SetThread(ts, t);
    // the position of `t` in `r`, and every other position holds what `ts` held there
    var at := if Lookup(ts, Some(t.id)).Some? then Lookup(ts, Some(t.id)).value else |ts|;
    assert r[at] == t && |r| >= |ts|;
    assert forall j :: 0 <= j < |r| && j != at ==> j < |ts| && r[j] == ts[j];
    assert DistinctThreadIds(r) by {
      forall i, j | 0 <= i < j < |r| ensures r[i].id != r[j].id {
        if i != at && j != at {
        } else if at < |ts| {
          assert ts[at].id == t.id;
        }
      }
    }
    LookupUnique(r, Some(t.id));
    forall id | id != Some(t.id) ensures Lookup(r, id) == Lookup(ts, id) {
      LookupUnique(ts, id);
      LookupUnique(r, id);
      match Lookup(ts, id)
      case Some(k) => {
        assert k != at;
        assert r[k] == ts[k];
      }
      case None => {
        forall j | 0 <= j < |r| ensures id != Some(r[j].id) {
          if j != at {
            assert r[j] == ts[j];
          }
        }
      }
    }
  }

  /** With distinct ids, `Lookup` finds the one position that carries the id. */
  lemma LookupUnique(ts: seq<Thread>, id: Option<string>)
    requires DistinctThreadIds(ts)
    ensures forall j :: 0 <= j < |ts| && id == Some(ts[j].id) ==> Lookup(ts, id) == Some(j)
  {
    forall j | 0 <= j < |ts| && id == Some(ts[j].id) ensures Lookup(ts, id) == Some(j) {
      var k := Lookup(ts, id);
      assert k.Some?;
      assert ts[k.value].id == ts[j].id;
    }
  }

  /** `threads.delete(id)` for the thread at position `k`. */
  function RemoveAt(ts: seq<Thread>, k: nat): (r: seq<Thread>)
    requires k < |ts|
    ensures |r| == |ts| - 1
    ensures forall j :: 0 <= j < |r| ==> r[j] == ts[if j < k then j else j + 1]
  {
    ts[..k] + ts[k + 1..]
  }

  /** Deleting a thread removes exactly that id: no thread carries it afterwards, every
      other thread is still filed under its id, and ids stay distinct. */
  lemma RemoveOnlyThat(ts: seq<Thread>, k: nat)
    requires k < |ts| && DistinctThreadIds(ts)
    ensures var r := RemoveAt(ts, k);
      && DistinctThreadIds(r)
      && Lookup(r, Some(ts[k].id)).None?
      && forall j :: 0 <= j < |ts| && j != k ==> ts[j] in r
  {
    var r := RemoveAt(ts, k);
    forall j | 0 <= j < |ts| && j != k ensures ts[j] in r {
      assert r[if j < k then j else j - 1] == ts[j];
    }
  }

  // ---------------------------------------------------------------------
  // Reading threads
  // ---------------------------------------------------------------------

  function ViewReply(r: Reply): ReplyView {
    ReplyView(r.id, r.text, r.createdOn)
  }

  function ViewReplies(rs: seq<Reply>): (v: seq<ReplyView>)
    ensures |v| == |rs| && forall k :: 0 <= k < |rs| ==> v[k] == ViewReply(rs[k])
  {
    seq(|rs|, k requires 0 <= k < |rs| => ViewReply(rs[k]))
  }

  /** The ten most recently bumped threads, most recent first (ties in insertion order). */
  function TopThreads(ts: seq<Thread>): (r: seq<Thread>)
    ensures |r| == if |ts| < 10 then |ts| else 10
    ensures forall i, j :: 0 <= i < j < |r| ==> r[i].bumpedOn >= r[j].bumpedOn
    ensures multiset(r) <= multiset(ts)
  {
    var r := TopDesc(ts, BumpKey, 10);
    assert forall i, j :: 0 <= i < j < |r| ==> BumpKey(r[i]) >= BumpKey(r[j]);
    r
  }

  /** A listed thread: its fields without password or report flag, and its three newest
      replies, newest first. */
  function ListView(t: Thread): (v: ThreadView)
    ensures v.id == t.id && v.text == t.text && v.createdOn == t.createdOn && v.bumpedOn == t.bumpedOn
    ensures |v.replies| == if |t.replies| < 3 then |t.replies| else 3
    ensures forall a, b :: 0 <= a < b < |v.replies| ==> v.replies[a].createdOn >= v.replies[b].createdOn
  {
    var shown := TopDesc(t.replies, CreatedKey, 3);
    assert forall a, b :: 0 <= a < b < |shown| ==> CreatedKey(shown[a]) >= CreatedKey(shown[b]);
    ThreadView(t.id, t.text, t.createdOn, t.bumpedOn, ViewReplies(shown))
  }

  /** The replies a listed thread shows are views of some of its own replies, and every
      reply left out (counted with multiplicity) is no newer than any shown one. */
  lemma ListViewShowsNewest(t: Thread)
    ensures exists shown: seq<Reply> ::
      && multiset(shown) <= multiset(t.replies)
      && ListView(t).replies == ViewReplies(shown)
      && forall x :: x in multiset(t.replies) - multiset(shown) ==>
           forall j :: 0 <= j < |shown| ==> x.createdOn <= shown[j].createdOn
  {
    var shown := TopDesc(t.replies, CreatedKey, 3);
    TopDescLeavesSmaller(t.replies, CreatedKey, 3);
    forall x | x in multiset(t.replies) - multiset(shown)
      ensures forall j :: 0 <= j < |shown| ==> x.createdOn <= shown[j].createdOn
    {
      assert forall j :: 0 <= j < |shown| ==> CreatedKey(x) <= CreatedKey(shown[j]);
    }
    assert ListView(t).replies == ViewReplies(shown);
  }

  /** The answer to GET /api/threads/{board}: at most ten threads, most recently bumped first. */
  function ListThreads(ts: seq<Thread>): (v: seq<ThreadView>)
    ensures |v| == if |ts| < 10 then |ts| else 10
    ensures forall i, j :: 0 <= i < j < |v| ==> v[i].bumpedOn >= v[j].bumpedOn
  {
    var top := TopThreads(ts);
    seq(|top|, k requires 0 <= k < |top| => ListView(top[k]))
  }

  /** Each listed thread is a stored thread, shown with at most three replies, newest first. */
  lemma ListedThreadsShape(ts: seq<Thread>, i: nat)
    requires i < |ListThreads(ts)|
    ensures var v := ListThreads(ts)[i];
      && (exists t :: t in ts && v == ListView(t))
      && |v.replies| <= 3
      && forall a, b :: 0 <= a < b < |v.replies| ==> v.replies[a].createdOn >= v.replies[b].createdOn
  {
    var top := TopThreads(ts);
    assert ListThreads(ts)[i] == ListView(top[i]);
    assert top[i] in multiset(ts);
  }

  /** A stored thread left out of the listing was bumped no later than any listed thread. */
  lemma UnlistedAreOlder(ts: seq<Thread>, t: Thread)
    requires t in ts
    ensures var v := ListThreads(ts);
      (exists i :: 0 <= i < |v| && v[i].id == t.id) || forall i :: 0 <= i < |v| ==> t.bumpedOn <= v[i].bumpedOn
  {
    var top := TopThreads(ts);
    var v := ListThreads(ts);
    if t in top {
      var i :| 0 <= i < |top| && top[i] == t;
      assert v[i] == ListView(top[i]);
    } else {
      forall i | 0 <= i < |v| ensures t.bumpedOn <= v[i].bumpedOn {
        assert v[i] == ListView(top[i]);
      }
    }
  }

  /** The stored threads after GET /api/threads/{board}: each listed thread's replies are
      sorted in place, newest first; no other thread and no other field changes. */
  function Listed(ts: seq<Thread>): (r: seq<Thread>)
    ensures |r| == |ts|
  {
    var top := TopThreads(ts);
    seq(|ts|, k requires 0 <= k < |ts| =>
      if ts[k] in top then ts[k].(replies := SortDesc(ts[k].replies, CreatedKey)) else ts[k])
  }

  /** Listing keeps every thread where it is with all fields but the reply order; for the
      listed threads the stored replies become a newest-first permutation of themselves,
      which is the order a later GET /api/replies/{board} shows. */
  lemma ListingSortsStoredReplies(ts: seq<Thread>, k: nat)
    requires k < |ts|
    ensures var r := Listed(ts)[k];
      && r == ts[k].(replies := r.replies)
      && multiset(r.replies) == multiset(ts[k].replies)
      && (ts[k] in TopThreads(ts) ==> SortedDesc(r.replies, CreatedKey))
      && (ts[k] !in TopThreads(ts) ==> r.replies == ts[k].replies)
  {
  }

  /** The full view of one thread: its fields and every reply, in stored order, without
      passwords or report flags. */
  function DetailView(t: Thread): (v: ThreadView)
    ensures v.id == t.id && v.text == t.text && v.createdOn == t.createdOn && v.bumpedOn == t.bumpedOn
    ensures |v.replies| == |t.replies|
    ensures forall k :: 0 <= k < |t.replies| ==>
      v.replies[k] == ReplyView(t.replies[k].id, t.replies[k].text, t.replies[k].createdOn)
  {
    ThreadView(t.id, t.text, t.createdOn, t.bumpedOn, ViewReplies(t.replies))
  }

  /** After a listing, the detail view of a listed thread shows its replies newest first. */
  lemma DetailAfterListingIsNewestFirst(ts: seq<Thread>, k: nat)
    requires k < |ts| && ts[k] in TopThreads(ts)
    ensures var v := DetailView(Listed(ts)[k]);
      forall a, b :: 0 <= a < b < |v.replies| ==> v.replies[a].createdOn >= v.replies[b].createdOn
  {
    ListingSortsStoredReplies(ts, k);
    var rs := Listed(ts)[k].replies;
    forall a, b | 0 <= a < b < |rs| ensures rs[a].createdOn >= rs[b].createdOn {
      assert CreatedKey(rs[a]) >= CreatedKey(rs[b]);
    }
  }

  // ---------------------------------------------------------------------
  // Reports, replies, soft deletion
  // ---------------------------------------------------------------------

  /** `replies.find(r => r._id === id)`: the first reply carrying `id`. */
  function FindReply(rs: seq<Reply>, id: Option<string>): (k: Option<nat>)
    ensures k.Some? ==>
      (k.value < |rs| && id == Some(rs[k.value].id) && forall j :: 0 <= j < k.value ==> id != Some(rs[j].id))
    ensures k.None? ==> forall j :: 0 <= j < |rs| ==> id != Some(rs[j].id)
    decreases |rs|
  {
    if |rs| == 0 then None
    else if id == Some(rs[0].id) then Some(0)
    else match FindReply(rs[1..], id)
      case None => None
      case Some(k) => Some(k + 1)
  }

  /** The thread after a reply is posted: the reply goes at the end and the thread is bumped
      to the reply's creation time. */
  function WithReply(t: Thread, r: Reply): (u: Thread)
    ensures u.replies == t.replies + [r] && u.bumpedOn == r.createdOn
    ensures u == t.(replies := u.replies, bumpedOn := u.bumpedOn)
  {
    t.(replies := t.replies + [r], bumpedOn := r.createdOn)
  }

  /** The replies after the reply at `j` is soft-deleted. */
  function SoftDeleted(rs: seq<Reply>, j: nat): (r: seq<Reply>)
    requires j < |rs|
    ensures |r| == |rs|
    ensures r[j].text == Deleted && r[j] == rs[j].(text := r[j].text)
    ensures forall k :: 0 <= k < |rs| && k != j ==> r[k] == rs[k]
  {
    rs[j := rs[j].(text := Deleted)]
  }

  /** Deleting the same reply twice is deleting it once. */
  lemma SoftDeleteIdempotent(rs: seq<Reply>, j: nat)
    requires j < |rs|
    ensures SoftDeleted(SoftDeleted(rs, j), j) == SoftDeleted(rs, j)
  {
  }

  /** Setting the report flag twice is setting it once. */
  lemma ReportIdempotent(t: Thread, r: Reply)
    ensures t.(reported := true).(reported := true) == t.(reported := true)
    ensures r.(reported := true).(reported := true) == r.(reported := true)
  {
  }

  /** The board the report handlers store: reporting the same thread, or the same reply of
      a thread, a second time leaves the board as the first report left it. */
  lemma ReportTwiceIsOnce(ts: seq<Thread>, k: nat, j: nat)
    requires k < |ts|
    ensures var once := ts[k := ts[k].(reported := true)];
      once[k := once[k].(reported := true)] == once
    ensures j < |ts[k].replies| ==>
      var once := ts[k := ts[k].(replies := ts[k].replies[j := ts[k].replies[j].(reported := true)])];
      once[k := once[k].(replies := once[k].replies[j := once[k].replies[j].(reported := true)])] == once
  {
    if j < |ts[k].replies| {
      var rs := ts[k].replies[j := ts[k].replies[j].(reported := true)];
      var once := ts[k := ts[k].(replies := rs)];
      assert once[k].replies[j := once[k].replies[j].(reported := true)] == rs;
    }
  }

  // ---------------------------------------------------------------------
  // The store and its eight handlers
  // ---------------------------------------------------------------------

  class Store {
    var boards: map<string, seq<Thread>>

    /** Within each board, thread ids are distinct (they are the keys of its `Map`). */
    ghost predicate Valid()
      reads this
    {
      forall b :: b in boards ==> DistinctThreadIds(boards[b])
    }

    constructor ()
      ensures Valid() && boards == map[]
    {
      boards := map[];
    }

    /** `getBoard(name)`: create an empty board on first access, otherwise keep the existing one. */
    method GetBoard(name: string) returns (ts: seq<Thread>)
      requires Valid()
      modifies this
      ensures Valid()
      ensures boards == WithBoard(old(boards), name) && ts == boards[name]
    {
      if name !in boards {
        boards := boards[name := []];
      }
      ts := boards[name];
    }

    /** POST /api/threads/{board}. */
    method PostThread(board: string, text: Option<string>, deletePassword: Option<string>,
                      threadId: string, now: nat) returns (res: Response)
      requires Valid()
      modifies this
      ensures Valid()
      ensures !Present(text) || !Present(deletePassword) ==>
        res == Status(400, "Text and password required") && boards == old(boards)
      ensures Present(text) && Present(deletePassword) ==>
        var ts := WithBoard(old(boards), board)[board];
        && boards == WithBoard(old(boards), board)[board :=
             SetThread(ts, Thread(threadId, text.value, now, now, false, deletePassword.value, []))]
        && res == Redirect("/b/" + board + "/" + threadId)
    {
      if !Present(text) || !Present(deletePassword) {
        return Status(400, "Text and password required");
      }
      var ts := GetBoard(board);
      var t := Thread(threadId, text.value, now, now, false, deletePassword.value, []);
      SetThreadFiles(ts, t);
      boards := boards[board := SetThread(ts, t)];
      res := Redirect("/b/" + board + "/" + threadId);
    }

    /** GET /api/threads/{board}: the listing, which also sorts the listed threads'
        stored replies in place. */
    method GetThreads(board: string) returns (res: Response)
      requires Valid()
      modifies this
      ensures Valid()
      ensures var ts := WithBoard(old(boards), board)[board];
        boards == WithBoard(old(boards), board)[board := Listed(ts)] && res == ThreadList(ListThreads(ts))
    {
      var ts := GetBoard(board);
      res := ThreadList(ListThreads(ts));
      var listed := Listed(ts);
      assert DistinctThreadIds(listed) by {
        forall i, j | 0 <= i < j < |listed| ensures listed[i].id != listed[j].id {
          ListingSortsStoredReplies(ts, i);
          ListingSortsStoredReplies(ts, j);
        }
      }
      boards := boards[board := listed];
    }

    /** DELETE /api/threads/{board}: unknown thread, wrong password, or removal. */
    method DeleteThread(board: string, threadId: Option<string>, deletePassword: Option<string>)
      returns (res: Response)
      requires Valid()
      modifies this
      ensures Valid()
      ensures var ts := WithBoard(old(boards), board)[board];
        match Lookup(ts, threadId)
        case None => res == Send("thread not found") && boards == WithBoard(old(boards), board)
        case Some(k) =>
          if Some(ts[k].deletePassword) != deletePassword then
            res == Send("incorrect password") && boards == WithBoard(old(boards), board)
          else
            res == Send("success") && boards == WithBoard(old(boards), board)[board := RemoveAt(ts, k)]
    {
      var ts := GetBoard(board);
      var k := Lookup(ts, threadId);
      if k.None? {
        return Send("thread not found");
      }
      if Some(ts[k.value].deletePassword) != deletePassword {
        return Send("incorrect password");
      }
      RemoveOnlyThat(ts, k.value);
      boards := boards[board := RemoveAt(ts, k.value)];
      res := Send("success");
    }

    /** PUT /api/threads/{board}: flag the thread as reported. */
    method ReportThread(board: string, threadId: Option<string>) returns (res: Response)
      requires Valid()
      modifies this
      ensures Valid()
      ensures var ts := WithBoard(old(boards), board)[board];
        match Lookup(ts, threadId)
        case None => res == Send("thread not found") && boards == WithBoard(old(boards), board)
        case Some(k) =>
          res == Send("reported")
          && boards == WithBoard(old(boards), board)[board := ts[k := ts[k].(reported := true)]]
    {
      var ts := GetBoard(board);
      var k := Lookup(ts, threadId);
      if k.None? {
        return Send("thread not found");
      }
      var updated := ts[k.value := ts[k.value].(reported := true)];
      assert forall j :: 0 <= j < |ts| ==> updated[j].id == ts[j].id;
      boards := boards[board := updated];
      res := Send("reported");
    }

    /** POST /api/replies/{board}: missing fields, unknown thread, or a new reply at the end. */
    method PostReply(board: string, threadId: Option<string>, text: Option<string>,
                     deletePassword: Option<string>, replyId: string, now: nat) returns (res: Response)
      requires Valid()
      modifies this
      ensures Valid()
      ensures !Present(text) || !Present(deletePassword) || !Present(threadId) ==>
        res == Status(400, "Thread ID, text and password required") && boards == old(boards)
      ensures Present(text) && Present(deletePassword) && Present(threadId) ==>
        var ts := WithBoard(old(boards), board)[board];
        match Lookup(ts, threadId)
        case None => res == Status(404, "Thread not found") && boards == WithBoard(old(boards), board)
        case Some(k) =>
          res == Redirect("/b/" + board + "/" + threadId.value)
          && boards == WithBoard(old(boards), board)[board :=
               ts[k := WithReply(ts[k], Reply(replyId, text.value, now, deletePassword.value, false))]]
    {
      if !Present(text) || !Present(deletePassword) || !Present(threadId) {
        return Status(400, "Thread ID, text and password required");
      }
      var ts := GetBoard(board);
      var k := Lookup(ts, threadId);
      if k.None? {
        return Status(404, "Thread not found");
      }
      var reply := Reply(replyId, text.value, now, deletePassword.value, false);
      var updated := ts[k.value := WithReply(ts[k.value], reply)];
      assert forall j :: 0 <= j < |ts| ==> updated[j].id == ts[j].id;
      boards := boards[board := updated];
      res := Redirect("/b/" + board + "/" + threadId.value);
    }

    /** GET /api/replies/{board}: the thread with all its replies, in stored order. */
    method GetReplies(board: string, threadId: Option<string>) returns (res: Response)
      requires Valid()
      modifies this
      ensures Valid()
      ensures boards == WithBoard(old(boards), board)
      ensures var ts := boards[board];
        match Lookup(ts, threadId)
        case None => res == Status(404, "Thread not found")
        case Some(k) => res == ThreadDetail(DetailView(ts[k]))
    {
      var ts := GetBoard(board);
      var k := Lookup(ts, threadId);
      if k.None? {
        return Status(404, "Thread not found");
      }
      res := ThreadDetail(DetailView(ts[k.value]));
    }

    /** DELETE /api/replies/{board}: checks thread, then reply, then password; on success the
        reply stays in place with its text replaced by `[deleted]`. */
    method DeleteReply(board: string, threadId: Option<string>, replyId: Option<string>,
                       deletePassword: Option<string>) returns (res: Response)
      requires Valid()
      modifies this
      ensures Valid()
      ensures var ts := WithBoard(old(boards), board)[board];
        match Lookup(ts, threadId)
        case None => res == Send("thread not found") && boards == WithBoard(old(boards), board)
        case Some(k) =>
          match FindReply(ts[k].replies, replyId)
          case None => res == Send("reply not found") && boards == WithBoard(old(boards), board)
          case Some(j) =>
            if Some(ts[k].replies[j].deletePassword) != deletePassword then
              res == Send("incorrect password") && boards == WithBoard(old(boards), board)
            else
              res == Send("success")
              && boards == WithBoard(old(boards), board)[board :=
                   ts[k := ts[k].(replies := SoftDeleted(ts[k].replies, j))]]
    {
      var ts := GetBoard(board);
      var k := Lookup(ts, threadId);
      if k.None? {
        return Send("thread not found");
      }
      var t := ts[k.value];
      var j := FindReply(t.replies, replyId);
      if j.None? {
        return Send("reply not found");
      }
      if Some(t.replies[j.value].deletePassword) != deletePassword {
        return Send("incorrect password");
      }
      var updated := ts[k.value := t.(replies := SoftDeleted(t.replies, j.value))];
      assert forall i :: 0 <= i < |ts| ==> updated[i].id == ts[i].id;
      boards := boards[board := updated];
      res := Send("success");
    }

    /** PUT /api/replies/{board}: flag the reply as reported. */
    method ReportReply(board: string, threadId: Option<string>, replyId: Option<string>) returns (res: Response)
      requires Valid()
      modifies this
      ensures Valid()
      ensures var ts := WithBoard(old(boards), board)[board];
        match Lookup(ts, threadId)
        case None => res == Send("thread not found") && boards == WithBoard(old(boards), board)
        case Some(k) =>
          match FindReply(ts[k].replies, replyId)
          case None => res == Send("reply not found") && boards == WithBoard(old(boards), board)
          case Some(j) =>
            res == Send("reported")
            && boards == WithBoard(old(boards), board)[board :=
                 ts[k := ts[k].(replies := ts[k].replies[j := ts[k].replies[j].(reported := true)])]]
    {
      var ts := GetBoard(board);
      var k := Lookup(ts, threadId);
      if k.None? {
        return Send("thread not found");
      }
      var t := ts[k.value];
      var j := FindReply(t.replies, replyId);
      if j.None? {
        return Send("reply not found");
      }
      var updated := ts[k.value := t.(replies := t.replies[j.value := t.replies[j.value].(reported := true)])];
      assert forall i :: 0 <= i < |ts| ==> updated[i].id == ts[i].id;
      boards := boards[board := updated];
      res := Send("reported");
    }
  }
}
