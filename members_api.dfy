/** The data helpers of `src/api/members.js`, each as the ordered list of HTTP requests it
    issues, a client that sends them one at a time and stops at the first failure, and an
    abstract two-collection store that gives the requests a meaning. */
module MembersApi {
  import opened Text
  import opened Js

  const ApiUrl: string := "https://json-server-git-main-rks-projects-29f40e45.vercel.app"

  datatype Verb = GET | POST | PUT | DELETE

  datatype Request = Request(verb: Verb, url: string, body: Option<Record>)

  datatype Collection = Members | DeleteHistory

  function CollectionUrl(c: Collection): string {
    match c
    case Members => ApiUrl + "/members"
    case DeleteHistory => ApiUrl + "/deleteHistory"
  }

  /** `${API_URL}/members/${id}` and `${API_URL}/deleteHistory/${id}`. */
  function ItemUrl(c: Collection, id: string): string {
    CollectionUrl(c) + "/" + id
  }

  // ------------------------------------------------------ request lists

  function FetchMembersRequests(): seq<Request> {
    [Request(GET, CollectionUrl(Members), None)]
  }

  function FetchDeleteHistoryRequests(): seq<Request> {
    [Request(GET, CollectionUrl(DeleteHistory), None)]
  }

  function AddMemberRequests(member: Record): seq<Request> {
    [Request(POST, CollectionUrl(Members), Some(member))]
  }

  function UpdateMemberRequests(id: Value, member: Record): seq<Request> {
    [Request(PUT, ItemUrl(Members, ToString(id)), Some(member))]
  }

  /** The history entry `deleteMember` posts: `{ ...member, deletionDate }`. */
  function HistoryEntry(member: Record, deletionDate: string): Record {
    Put(member, "deletionDate", Str(deletionDate))
  }

  /** `deleteMember(id, member)`: the DELETE first, then the POST of the history entry;
      `deletionDate` is the text `new Date().toLocaleString()` gives at that moment. */
  function DeleteMemberRequests(id: Value, member: Record, deletionDate: string): seq<Request> {
    [ Request(DELETE, ItemUrl(Members, ToString(id)), None),
      Request(POST, CollectionUrl(DeleteHistory), Some(HistoryEntry(member, deletionDate))) ]
  }

  /** `restoreMember(index, member)`: the POST of the record as it is, then the DELETE of
      history entry `index + 1`. */
  function RestoreMemberRequests(index: int, member: Record): seq<Request> {
    [ Request(POST, CollectionUrl(Members), Some(member)),
      Request(DELETE, ItemUrl(DeleteHistory, IntToString(index + 1)), None) ]
  }

  /** The calls the screens hand to their mutations. */
  datatype Mutation =
    | AddCall(member: Record)
    | UpdateCall(id: Value, member: Record)
    | DeleteCall(id: Value, member: Record)
    | RestoreCall(index: int, member: Record)

  /** The requests a mutation's `mutationFn` issues. */
  function MutationRequests(call: Mutation, deletionDate: string): seq<Request> {
    match call
    case AddCall(m) => AddMemberRequests(m)
    case UpdateCall(id, m) => UpdateMemberRequests(id, m)
    case DeleteCall(id, m) => DeleteMemberRequests(id, m, deletionDate)
    case RestoreCall(i, m) => RestoreMemberRequests(i, m)
  }

  /** The cached lists a mutation's `onSuccess` marks stale. */
  function Invalidates(call: Mutation): (keys: set<Collection>)
    ensures Members in keys
    ensures DeleteHistory in keys <==> call.DeleteCall? || call.RestoreCall?
  {
    match call
    case AddCall(_) => {Members}
    case UpdateCall(_, _) => {Members}
    case DeleteCall(_, _) => {Members, DeleteHistory}
    case RestoreCall(_, _) => {Members, DeleteHistory}
  }

  /** The DELETE of a member comes strictly before the POST of its history entry, which
      holds every field of the member and a `deletionDate` that overrides any field of that
      name; the entry is addressed by nothing but the collection URL. */
  lemma DeleteMemberShape(id: Value, member: Record, deletionDate: string)
    ensures var rs := DeleteMemberRequests(id, member, deletionDate);
      && |rs| == 2 && rs[0].verb == DELETE && rs[0].url == ItemUrl(Members, ToString(id))
      && rs[1].verb == POST && rs[1].url == CollectionUrl(DeleteHistory)
      && rs[1].body.Some?
      && Get(rs[1].body.value, "deletionDate") == Str(deletionDate)
      && (forall k :: k != "deletionDate" ==> Get(rs[1].body.value, k) == Get(member, k))
      && Keys(rs[1].body.value)
         == if "deletionDate" in Keys(member) then Keys(member) else Keys(member) + ["deletionDate"]
  {
    PutLaws(member, "deletionDate", Str(deletionDate));
  }

  // ---------------------------------------------------------------- routing

  predicate IsPrefix(p: string, s: string) {
    |p| <= |s| && s[..|p|] == p
  }

  /** Where a request goes: a collection, and the id segment when there is one. */
  datatype Target = Target(coll: Collection, id: Option<string>)

  function Route(url: string): Option<Target> {
    if url == CollectionUrl(Members) then Some(Target(Members, None))
    else if url == CollectionUrl(DeleteHistory) then Some(Target(DeleteHistory, None))
    else if IsPrefix(CollectionUrl(Members) + "/", url)
    then Some(Target(Members, Some(url[|CollectionUrl(Members)| + 1..])))
    else if IsPrefix(CollectionUrl(DeleteHistory) + "/", url)
    then Some(Target(DeleteHistory, Some(url[|CollectionUrl(DeleteHistory)| + 1..])))
    else None
  }

  /** The URLs the helpers build route back to the collection and id they were made from. */
  lemma RouteCollectionUrl(c: Collection)
    ensures Route(CollectionUrl(c)) == Some(Target(c, None))
  {
    if c == DeleteHistory {
      assert CollectionUrl(DeleteHistory)[|ApiUrl| + 1] != CollectionUrl(Members)[|ApiUrl| + 1];
    }
  }

  lemma RouteItemUrl(c: Collection, id: string)
    ensures Route(ItemUrl(c, id)) == Some(Target(c, Some(id)))
  {
    var m, h := CollectionUrl(Members), CollectionUrl(DeleteHistory);
    var i := |ApiUrl| + 1;
    CollectionFacts();
    PrefixSplit(CollectionUrl(c) + "/", id);
    var u := ItemUrl(c, id);
    assert u[i] == CollectionUrl(c)[i];
    if c == Members {
      assert u != h by { assert u[i] != h[i]; }
    } else {
      assert u != m && !IsPrefix(m + "/", u) by { assert u[i] != (m + "/")[i]; }
    }
  }

  /** The two collection URLs: their lengths, and the letter after the API's slash. */
  lemma CollectionFacts()
    ensures |CollectionUrl(Members)| == |ApiUrl| + 8
    ensures |CollectionUrl(DeleteHistory)| == |ApiUrl| + 14
    ensures CollectionUrl(Members)[|ApiUrl| + 1] == 'm'
    ensures CollectionUrl(DeleteHistory)[|ApiUrl| + 1] == 'd'
  {
  }

  lemma PrefixSplit(p: string, q: string)
    ensures IsPrefix(p, p + q) && (p + q)[|p|..] == q
  {
    assert (p + q)[..|p|] == p;
  }

  // ------------------------------------------------------ the abstract store

  /** The two remote collections. */
  datatype Store = Store(members: seq<Record>, history: seq<Record>)

  /** What a request resolves with; `Failed` is a rejected promise. */
  datatype Response = Ok(data: ResponseData) | Failed
  datatype ResponseData = NoContent | One(record: Record) | Many(records: seq<Record>)

  function Items(s: Store, c: Collection): seq<Record> {
    match c
    case Members => s.members
    case DeleteHistory => s.history
  }

  function WithItems(s: Store, c: Collection, items: seq<Record>): Store {
    match c
    case Members => s.(members := items)
    case DeleteHistory => s.(history := items)
  }

  /** The record whose `id` reads as the URL segment. */
  predicate HasId(r: Record, id: string) {
    !Get(r, "id").Undefined? && ToString(Get(r, "id")) == id
  }

  /** The first position holding a record with that id. */
  function FindId(items: seq<Record>, id: string): (j: Option<nat>)
    ensures j.Some? ==> j.value < |items| && HasId(items[j.value], id)
                        && forall i :: 0 <= i < j.value ==> !HasId(items[i], id)
    ensures j.None? ==> forall i :: 0 <= i < |items| ==> !HasId(items[i], id)
    decreases |items|
  {
    if items == [] then None
    else if HasId(items[0], id) then Some(0)
    else match FindId(items[1..], id)
      case None => None
      case Some(j) => Some(j + 1)
  }

  /** The store's answer to one request. This is an assumption about the remote service,
      not something the front-end defines: GET lists a collection or reads one record;
      POST appends the body unchanged (no id is invented); PUT replaces the first record
      with that id by the body, keeping the id; DELETE removes the first record with that
      id; an unknown URL, an unknown id or a missing body fails and changes nothing. */
  function Apply(s: Store, req: Request): (Store, Response) {
    match Route(req.url)
    case None => (s, Failed)
    case Some(Target(c, None)) =>
      if req.verb == GET then (s, Ok(Many(Items(s, c))))
      else if req.verb == POST && req.body.Some? then
        (WithItems(s, c, Items(s, c) + [req.body.value]), Ok(One(req.body.value)))
      else (s, Failed)
    case Some(Target(c, Some(id))) =>
      var items := Items(s, c);
      match FindId(items, id)
      case None => (s, Failed)
      case Some(j) =>
        if req.verb == GET then (s, Ok(One(items[j])))
        else if req.verb == PUT && req.body.Some? then
          var updated := Put(req.body.value, "id", Get(items[j], "id"));
          (WithItems(s, c, items[..j] + [updated] + items[j + 1..]), Ok(One(updated)))
        else if req.verb == DELETE then
          (WithItems(s, c, items[..j] + items[j + 1..]), Ok(NoContent))
        else (s, Failed)
  }

  /** One request sent as the `k`-th of the session: a request in `lost` never reaches
      the store (a transport failure), the others are answered by `Apply`. */
  function Deliver(s: Store, k: nat, lost: set<nat>, req: Request): (Store, Response) {
    if k in lost then (s, Failed) else Apply(s, req)
  }

  datatype Outcome = Outcome(store: Store, issued: seq<Request>, last: Response)

  /** Awaiting each request in turn: a failure rejects the helper's promise, so nothing
      after it is sent. */
  function Run(s: Store, k: nat, lost: set<nat>, reqs: seq<Request>): Outcome
    requires reqs != []
    decreases |reqs|
  {
    var (s', r) := Deliver(s, k, lost, reqs[0]);
    if r.Failed? || |reqs| == 1 then Outcome(s', [reqs[0]], r)
    else
      var o := Run(s', k + 1, lost, reqs[1..]);
      Outcome(o.store, [reqs[0]] + o.issued, o.last)
  }

  /** What is sent is a non-empty prefix of the list, and it stops short only at a
      failure. */
  lemma {:induction false} RunIssuesPrefix(s: Store, k: nat, lost: set<nat>, reqs: seq<Request>)
    requires reqs != []
    ensures var o := Run(s, k, lost, reqs);
      && 1 <= |o.issued| <= |reqs| && o.issued == reqs[..|o.issued|]
      && (|o.issued| < |reqs| ==> o.last.Failed?)
    decreases |reqs|
  {
    var (s', r) := Deliver(s, k, lost, reqs[0]);
    if !(r.Failed? || |reqs| == 1) {
      RunIssuesPrefix(s', k + 1, lost, reqs[1..]);
      var o := Run(s', k + 1, lost, reqs[1..]);
      assert reqs[..1 + |o.issued|] == [reqs[0]] + reqs[1..][..|o.issued|];
    }
  }

  /** A failed DELETE of the member ends `deleteMember`: no history entry is posted and
      neither collection changes. */
  lemma DeleteStopsWhenDeleteFails(s: Store, k: nat, lost: set<nat>, id: Value, member: Record, date: string)
    requires Deliver(s, k, lost, DeleteMemberRequests(id, member, date)[0]).1.Failed?
    ensures var o := Run(s, k, lost, DeleteMemberRequests(id, member, date));
      o.issued == [DeleteMemberRequests(id, member, date)[0]] && o.store == s && o.last.Failed?
  {
    RouteItemUrl(Members, ToString(id));
  }

  /** With both requests delivered and the member present, `deleteMember` moves it: the
      first record with that id leaves `members` and the history gains the entry. */
  lemma DeleteMovesMember(s: Store, k: nat, lost: set<nat>, id: Value, member: Record, date: string)
    requires k !in lost && k + 1 !in lost
    requires FindId(s.members, ToString(id)).Some?
    ensures var j := FindId(s.members, ToString(id)).value;
      var o := Run(s, k, lost, DeleteMemberRequests(id, member, date));
      && o.issued == DeleteMemberRequests(id, member, date) && o.last.Ok?
      && o.store.members == s.members[..j] + s.members[j + 1..]
      && o.store.history == s.history + [HistoryEntry(member, date)]
  {
    RouteItemUrl(Members, ToString(id));
    RouteCollectionUrl(DeleteHistory);
  }

  /** With both requests delivered, `restoreMember` appends the record to `members` as it
      is, `id` and `deletionDate` included; whether a history entry goes is decided by
      `index + 1` alone. When no entry has that id the promise rejects although the member
      has already been re-added: the two steps are not atomic. */
  lemma RestoreEffect(s: Store, k: nat, lost: set<nat>, index: int, member: Record)
    requires k !in lost && k + 1 !in lost
    ensures var o := Run(s, k, lost, RestoreMemberRequests(index, member));
      var target := IntToString(index + 1);
      && o.issued == RestoreMemberRequests(index, member)
      && o.store.members == s.members + [member]
      && (FindId(s.history, target).None? ==> o.last.Failed? && o.store.history == s.history)
      && (FindId(s.history, target).Some? ==>
            var j := FindId(s.history, target).value;
            o.last.Ok? && o.store.history == s.history[..j] + s.history[j + 1..])
  {
    RouteCollectionUrl(Members);
    RouteItemUrl(DeleteHistory, IntToString(index + 1));
  }

  /** Each fetch is one GET whose response body is handed back unchanged. */
  lemma FetchReturnsCollection(s: Store, k: nat, lost: set<nat>)
    requires k !in lost
    ensures Run(s, k, lost, FetchMembersRequests()) == Outcome(s, FetchMembersRequests(), Ok(Many(s.members)))
    ensures Run(s, k, lost, FetchDeleteHistoryRequests())
            == Outcome(s, FetchDeleteHistoryRequests(), Ok(Many(s.history)))
  {
    RouteCollectionUrl(Members);
    RouteCollectionUrl(DeleteHistory);
  }

  /** `updateMember(id, m)` replaces the member with that id by `m`, keeping the id. */
  lemma UpdateReplaces(s: Store, k: nat, lost: set<nat>, id: Value, member: Record)
    requires k !in lost
    requires FindId(s.members, ToString(id)).Some?
    ensures var j := FindId(s.members, ToString(id)).value;
      var o := Run(s, k, lost, UpdateMemberRequests(id, member));
      && o.last.Ok?
      && o.store.members
         == s.members[..j] + [Put(member, "id", Get(s.members[j], "id"))] + s.members[j + 1..]
      && o.store.history == s.history
  {
    RouteItemUrl(Members, ToString(id));
  }

  // ------------------------------------------------------------------ client

  /** The HTTP client the helpers share: the requests sent so far, in order, and the store
      they reach. */
  class Client {
    var log: seq<Request>
    var store: Store
    const lost: set<nat>

    constructor(initial: Store, lost: set<nat>)
      ensures log == [] && store == initial && this.lost == lost
    {
      log := [];
      store := initial;
      this.lost := lost;
    }

    method Send(req: Request) returns (resp: Response)
      modifies this
      ensures log == old(log) + [req]
      ensures (store, resp) == Deliver(old(store), |old(log)|, lost, req)
    {
      var answer := Deliver(store, |log|, lost, req);
      store, resp := answer.0, answer.1;
      log := log + [req];
    }

    /** The state after running `reqs`: what the pure request list predicts. */
    ghost predicate Follows(oldLog: seq<Request>, oldStore: Store, reqs: seq<Request>)
      reads this
      requires reqs != []
    {
      var o := Run(oldStore, |oldLog|, lost, reqs);
      store == o.store && log == oldLog + o.issued
    }

    method FetchMembers() returns (r: Response)
      modifies this
      ensures Follows(old(log), old(store), FetchMembersRequests())
      ensures r == Run(old(store), |old(log)|, lost, FetchMembersRequests()).last
    {
      r := Send(Request(GET, CollectionUrl(Members), None));
    }

    method FetchDeleteHistory() returns (r: Response)
      modifies this
      ensures Follows(old(log), old(store), FetchDeleteHistoryRequests())
      ensures r == Run(old(store), |old(log)|, lost, FetchDeleteHistoryRequests()).last
    {
      r := Send(Request(GET, CollectionUrl(DeleteHistory), None));
    }

    method AddMember(member: Record) returns (r: Response)
      modifies this
      ensures Follows(old(log), old(store), AddMemberRequests(member))
      ensures r == Run(old(store), |old(log)|, lost, AddMemberRequests(member)).last
    {
      r := Send(Request(POST, CollectionUrl(Members), Some(member)));
    }

    method UpdateMember(id: Value, member: Record) returns (r: Response)
      modifies this
      ensures Follows(old(log), old(store), UpdateMemberRequests(id, member))
      ensures r == Run(old(store), |old(log)|, lost, UpdateMemberRequests(id, member)).last
    {
      r := Send(Request(PUT, ItemUrl(Members, ToString(id)), Some(member)));
    }

    /** Resolves (`ok`) with no value once both steps succeeded; rejects otherwise. */
    method DeleteMember(id: Value, member: Record, deletionDate: string) returns (ok: bool)
      modifies this
      ensures Follows(old(log), old(store), DeleteMemberRequests(id, member, deletionDate))
      ensures ok == Run(old(store), |old(log)|, lost, DeleteMemberRequests(id, member, deletionDate)).last.Ok?
    {
      var r := Send(Request(DELETE, ItemUrl(Members, ToString(id)), None));
      if r.Failed? {
        return false;
      }
      r := Send(Request(POST, CollectionUrl(DeleteHistory), Some(HistoryEntry(member, deletionDate))));
      ok := r.Ok?;
    }

    /** Resolves (`ok`) with no value once both steps succeeded; rejects otherwise. */
    method RestoreMember(index: int, member: Record) returns (ok: bool)
      modifies this
      ensures Follows(old(log), old(store), RestoreMemberRequests(index, member))
      ensures ok == Run(old(store), |old(log)|, lost, RestoreMemberRequests(index, member)).last.Ok?
    {
      var r := Send(Request(POST, CollectionUrl(Members), Some(member)));
      if r.Failed? {
        return false;
      }
      r := Send(Request(DELETE, ItemUrl(DeleteHistory, IntToString(index + 1)), None));
      ok := r.Ok?;
    }
  }
}
