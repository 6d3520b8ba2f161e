/** The client's login-history provider: the list it shares with its children, filled from
    `GET /api/auth/login-history` and trimmed locally after each delete request the server
    accepts. A request is only sent when a token is stored; axios rejects every answer whose
    status is not 2xx, and a rejected request leaves the list as it was. */
module LoginHistoryContext {
  import opened Common
  import opened Tables
  import opened Jwt
  import Accounts
  import Routes

  type Entry = Row<Accounts.LoginView>

  /** How an axios request ends: rejected (a network error or a non-2xx status), or resolved
      with the body of a 2xx answer. */
  datatype Response<T> = Rejected | Resolved(body: T)

  /** The body of a `getLoginHistory` answer. */
  datatype HistoryBody = HistoryBody(success: bool, data: seq<Entry>)

  /** A request the provider sends: its verb, its path split at `/`, and the bearer token. */
  datatype Request = Request(verb: Routes.Method, path: seq<string>, bearer: string)

  function HistoryPath(): seq<string> {
    ["api", "auth", "login-history"]
  }

  function HistoryItemPath(id: int): seq<string> {
    HistoryPath() + [IntString(id)]
  }

  /** What axios makes of the server's pre-handler outcome: a request that does not reach its
      handler is answered 404, 401 or 403 and rejected; one that does gets its handler's answer. */
  function Transport<T>(o: Routes.Outcome, handlerAnswer: Response<T>): (r: Response<T>)
    ensures !o.Proceed? ==> r == Rejected
    ensures o.Proceed? ==> r == handlerAnswer
  {
    if o.Proceed? then handlerAnswer else Rejected
  }

  // ---------------------------------------------------------------------------
  // The list after each operation, as functions of the list before

  function AfterFetch(list: seq<Entry>, token: Option<string>, response: Response<HistoryBody>): seq<Entry> {
    if Truthy(token) && response.Resolved? && response.body.success then response.body.data else list
  }

  function AfterDeleteById(list: seq<Entry>, token: Option<string>, id: int, response: Response<()>): seq<Entry> {
    if Truthy(token) && response.Resolved? then RemoveId(list, id) else list
  }

  function AfterDeleteAll(list: seq<Entry>, token: Option<string>, response: Response<()>): seq<Entry> {
    if Truthy(token) && response.Resolved? then [] else list
  }

  /** Without a stored token nothing is requested and nothing changes. */
  lemma NoTokenNoChange(list: seq<Entry>, token: Option<string>, id: int,
                        fetched: Response<HistoryBody>, deleted: Response<()>)
    requires !Truthy(token)
    ensures AfterFetch(list, token, fetched) == list
    ensures AfterDeleteById(list, token, id, deleted) == list
    ensures AfterDeleteAll(list, token, deleted) == list
  {
  }

  /** A fetch only replaces the list with a successful answer's data; a rejected request or a
      body whose `success` is false keeps the list. */
  lemma FetchReplacesOrKeeps(list: seq<Entry>, token: Option<string>, response: Response<HistoryBody>)
    ensures var r := AfterFetch(list, token, response);
      r == list || (response.Resolved? && response.body.success && r == response.body.data)
  {
  }

  /** A local delete drops exactly the entries with that id and keeps the order of the rest. */
  lemma DeleteByIdDropsOnlyThatId(list: seq<Entry>, token: Option<string>, id: int, response: Response<()>)
    requires Truthy(token) && response.Resolved?
    ensures !HasId(AfterDeleteById(list, token, id, response), id)
    ensures forall e :: e in list && e.id != id ==> e in AfterDeleteById(list, token, id, response)
    ensures forall e :: e in AfterDeleteById(list, token, id, response) ==> e in list
    ensures forall a: seq<Entry>, b: seq<Entry> ::
      AfterDeleteById(a + b, token, id, response) == AfterDeleteById(a, token, id, response) + AfterDeleteById(b, token, id, response)
  {
    RemoveIdGone(list, id);
    forall a: seq<Entry>, b: seq<Entry> ensures RemoveId(a + b, id) == RemoveId(a, id) + RemoveId(b, id) {
      RemoveIdConcat(a, b, id);
    }
  }

  // ---------------------------------------------------------------------------
  // The provider against the server

  /** The "delete all" request goes to `DELETE /api/auth/login-history`, which no route serves:
      whatever token it carries, it is answered 404, so the list is never cleared. */
  lemma DeleteAllNeverClears(list: seq<Entry>, token: Option<string>, verified: Option<Claims>,
                             handlerAnswer: Response<()>)
    ensures Transport(Routes.Dispatch(Routes.Delete, HistoryPath(), verified), handlerAnswer) == Rejected
    ensures AfterDeleteAll(list, token, Transport(Routes.Dispatch(Routes.Delete, HistoryPath(), verified), handlerAnswer)) == list
  {
    Routes.NoDeleteAllLoginHistoryRoute();
  }

  /** The server answers the fetch with its history newest first; when the client then deletes
      entry `id` locally, its list is still newest first and holds exactly the entries a fresh
      fetch after the server-side delete would return. */
  lemma DeleteMatchesRefetch(users: Accounts.Users, history: seq<Row<Accounts.LoginEntry>>, id: int)
    ensures var local := RemoveId(SortDesc(Accounts.JoinLogins(users, history), Accounts.LoginTimeOf), id);
      && SortedDesc(local, Accounts.LoginTimeOf)
      && multiset(local) == multiset(SortDesc(Accounts.JoinLogins(users, RemoveId(history, id)), Accounts.LoginTimeOf))
  {
    var joined := Accounts.JoinLogins(users, history);
    var sorted := SortDesc(joined, Accounts.LoginTimeOf);
    RemoveIdSorted(sorted, id, Accounts.LoginTimeOf);
    RemoveIdSameMultiset(sorted, joined, id);
    JoinRemoveId(users, history, id);
  }

  /** Deleting before or after the join gives the same entries: the join keeps each login
      row's id. */
  lemma {:induction false} JoinRemoveId(users: Accounts.Users, history: seq<Row<Accounts.LoginEntry>>, id: int)
    ensures Accounts.JoinLogins(users, RemoveId(history, id)) == RemoveId(Accounts.JoinLogins(users, history), id)
    decreases |history|
  {
    if |history| > 0 {
      var h := history[0];
      var rest := RemoveId(history[1..], id);
      JoinRemoveId(users, history[1..], id);
      var joinedRest := Accounts.JoinLogins(users, history[1..]);
      if h.id == id {
        assert RemoveId(history, id) == rest;
      } else {
        var kept := RemoveId(history, id);
        assert kept == [h] + rest;
        assert kept[0] == h && kept[1..] == rest;
      }
      match FirstWhere(users, Accounts.IdIs(h.data.userId))
      case None =>
      case Some(k) =>
        var joined := Accounts.JoinLogins(users, history);
        assert joined[0].id == h.id && joined[1..] == joinedRest;
    }
  }

  /** An entry occurs in the list after a delete as often as before, unless it has that id. */
  lemma {:induction false} RemoveIdCount<T>(s: seq<Row<T>>, id: int, x: Row<T>)
    ensures multiset(RemoveId(s, id))[x] == if x.id == id then 0 else multiset(s)[x]
  {
    if |s| > 0 {
      var head: seq<Row<T>> := if s[0].id == id then [] else [s[0]];
      var rest := RemoveId(s[1..], id);
      RemoveIdCount(s[1..], id, x);
      assert RemoveId(s, id) == head + rest;
      assert multiset(RemoveId(s, id)) == multiset(head) + multiset(rest);
      assert s == [s[0]] + s[1..];
      assert multiset(s) == multiset{s[0]} + multiset(s[1..]);
    }
  }

  lemma RemoveIdSameMultiset<T>(a: seq<Row<T>>, b: seq<Row<T>>, id: int)
    requires multiset(a) == multiset(b)
    ensures multiset(RemoveId(a, id)) == multiset(RemoveId(b, id))
  {
    forall x ensures multiset(RemoveId(a, id))[x] == multiset(RemoveId(b, id))[x] {
      RemoveIdCount(a, id, x);
      RemoveIdCount(b, id, x);
    }
  }

  /** A delete keeps the order of what remains, so a newest-first list stays newest first. */
  lemma {:induction false} RemoveIdSorted<T>(s: seq<Row<T>>, id: int, key: Row<T> -> int)
    requires SortedDesc(s, key)
    ensures SortedDesc(RemoveId(s, id), key)
  {
    if |s| > 0 {
      var rest := RemoveId(s[1..], id);
      assert SortedDesc(s[1..], key) by {
        forall i, j | 0 <= i < j < |s[1..]| ensures key(s[1..][i]) >= key(s[1..][j]) {
          assert s[1..][i] == s[i + 1] && s[1..][j] == s[j + 1];
        }
      }
      RemoveIdSorted(s[1..], id, key);
      if s[0].id != id {
        HeadAboveRest(s, id, key);
        SortedCons(s[0], rest, key);
        assert RemoveId(s, id) == [s[0]] + rest;
      }
    }
  }

  /** In a newest-first list, the head is at least as new as every entry left after a delete
      in the tail. */
  lemma HeadAboveRest<T>(s: seq<Row<T>>, id: int, key: Row<T> -> int)
    requires |s| > 0 && SortedDesc(s, key)
    ensures forall y :: y in RemoveId(s[1..], id) ==> key(s[0]) >= key(y)
  {
    forall y | y in RemoveId(s[1..], id) ensures key(s[0]) >= key(y) {
      var k :| 0 <= k < |s[1..]| && s[1..][k] == y;
      assert s[k + 1] == y;
    }
  }

  lemma SortedCons<T>(x: T, rest: seq<T>, key: T -> int)
    requires SortedDesc(rest, key)
    requires forall y :: y in rest ==> key(x) >= key(y)
    ensures SortedDesc([x] + rest, key)
  {
    var r := [x] + rest;
    forall i, j | 0 <= i < j < |r| ensures key(r[i]) >= key(r[j]) {
      assert r[j] == rest[j - 1];
      if i > 0 {
        assert r[i] == rest[i - 1];
      }
    }
  }

  // ---------------------------------------------------------------------------
  // The provider's state

  /** `LoginHistoryProvider`: the `loginHistory` state it shares through the context. */
  class LoginHistoryProvider {
    var loginHistory: seq<Entry>

    /** The state starts as an empty list. */
    constructor()
      ensures loginHistory == []
    {
      loginHistory := [];
    }

    /** `fetchLoginHistory`: `token` is the stored token and `response` what the `GET` request
        ends with. */
    method FetchLoginHistory(token: Option<string>, response: Response<HistoryBody>) returns (sent: Option<Request>)
      modifies this
      ensures sent.Some? <==> Truthy(token)
      ensures sent.Some? ==> sent.value == Request(Routes.Get, HistoryPath(), token.value)
      ensures loginHistory == AfterFetch(old(loginHistory), token, response)
    {
      if !Truthy(token) {
        return None;
      }
      sent := Some(Request(Routes.Get, HistoryPath(), token.value));
      if response.Resolved? && response.body.success {
        loginHistory := response.body.data;
      }
    }

    /** `deleteHistoryById(id)` */
    method DeleteHistoryById(token: Option<string>, id: int, response: Response<()>) returns (sent: Option<Request>)
      modifies this
      ensures sent.Some? <==> Truthy(token)
      ensures sent.Some? ==> sent.value == Request(Routes.Delete, HistoryItemPath(id), token.value)
      ensures loginHistory == AfterDeleteById(old(loginHistory), token, id, response)
    {
      if !Truthy(token) {
        return None;
      }
      sent := Some(Request(Routes.Delete, HistoryItemPath(id), token.value));
      if response.Resolved? {
        loginHistory := RemoveId(loginHistory, id);
      }
    }

    /** `deleteAllHistory()` */
    method DeleteAllHistory(token: Option<string>, response: Response<()>) returns (sent: Option<Request>)
      modifies this
      ensures sent.Some? <==> Truthy(token)
      ensures sent.Some? ==> sent.value == Request(Routes.Delete, HistoryPath(), token.value)
      ensures loginHistory == AfterDeleteAll(old(loginHistory), token, response)
    {
      if !Truthy(token) {
        return None;
      }
      sent := Some(Request(Routes.Delete, HistoryPath(), token.value));
      if response.Resolved? {
        loginHistory := [];
      }
    }
  }
}
