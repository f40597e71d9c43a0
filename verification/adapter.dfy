/**
 * The adapter the authentication framework calls (`customFaunaAdapter(f)`):
 * one method per storage operation, each composing store expressions and
 * passing the round trip through the `query` wrapper.
 */
module Adapter {
  import opened Values
  import opened Wrappers
  import opened RefIds
  import opened Format
  import opened Query
  import opened Store
  import opened Paging

  /** A document as the adapter hands it back: `from` of its flattened fields. */
  function Shown(ref: nat, data: Record): Record {
    FromStore(Flatten(Doc(ref, data)))
  }

  /** The user `getUser(id)` finds in state `s`, stated without the store's envelope:
      `id` must name a reference the store accepts, and that user must exist. */
  function UserById(s: DbState, id: Value): (user: Option<Record>)
    ensures user.Some? <==> ResolveRef(id).Some? && ResolveRef(id).value in s.users
    ensures user.Some? ==> Field(user.value, "id") == Str(IdString(ResolveRef(id).value))
  {
    match ResolveRef(id)
    case None => None
    case Some(ref) => if ref in s.users then Some(Shown(ref, s.users[ref])) else None
  }

  /** The documents of collection `c` that index `i` lists under `key`. */
  function Matching(s: DbState, i: Index, key: seq<Value>): set<nat> {
    MatchSet(s.Docs(i.Source()), i.Terms(), key)
  }

  /** The store after `deleteUser`'s transaction has deleted the sessions `sessionRefs`,
      the accounts `accountRefs` and then user `ref`. */
  function CascadePages(s: DbState, ref: nat, sessionRefs: set<nat>, accountRefs: set<nat>): (t: DbState)
    ensures t.users == s.users - {ref}
    ensures t.sessions == s.sessions - sessionRefs && t.accounts == s.accounts - accountRefs
    ensures t.verificationTokens == s.verificationTokens && t.nextId == s.nextId
  {
    s.WithDocs(Sessions, s.sessions - sessionRefs)
     .WithDocs(Accounts, s.accounts - accountRefs)
     .Remove(Users, ref)
  }

  /** The store once the whole cascade of `deleteUser` has run: the user is gone,
      and so is every session and account indexed under `userId`; nothing else changed. */
  function Cascade(s: DbState, ref: nat, userId: Value): (t: DbState)
    ensures Matching(t, SessionsByUser, [userId]) == {}
    ensures Matching(t, AccountsByUser, [userId]) == {}
    ensures ref !in t.users && t.users == s.users - {ref}
    ensures forall r :: r in s.sessions && r !in Matching(s, SessionsByUser, [userId]) ==>
              r in t.sessions && t.sessions[r] == s.sessions[r]
    ensures forall r :: r in s.accounts && r !in Matching(s, AccountsByUser, [userId]) ==>
              r in t.accounts && t.accounts[r] == s.accounts[r]
    ensures t.sessions.Keys <= s.sessions.Keys && t.accounts.Keys <= s.accounts.Keys
    ensures t.verificationTokens == s.verificationTokens && t.nextId == s.nextId
  {
    CascadePages(s, ref, Matching(s, SessionsByUser, [userId]), Matching(s, AccountsByUser, [userId]))
  }

  /** A session the transaction did not delete is still indexed under its user. */
  lemma SessionSurvivesCascade(s: DbState, ref: nat, sessionRefs: set<nat>, accountRefs: set<nat>, userId: Value, kept: nat)
    requires kept in Matching(s, SessionsByUser, [userId]) && kept !in sessionRefs
    ensures kept in Matching(CascadePages(s, ref, sessionRefs, accountRefs), SessionsByUser, [userId])
  {
    var t := CascadePages(s, ref, sessionRefs, accountRefs);
    assert t.Docs(Sessions) == s.Docs(Sessions) - sessionRefs;
  }

  /** A document matched by a one-field index holds the key in that field. */
  lemma SingleTermMatch(data: Record, term: string, v: Value)
    requires IndexKey(data, [term]) == Some([v])
    ensures term in data && data[term] == v
  {
    assert [term][1..] == [];
    assert IndexKey(data, [term][1..]) == Some([]);
    assert term in data;
    assert IndexKey(data, [term]) == Some([data[term]] + []);
    assert [data[term]] + [] == [v];
    assert ([data[term]] + [])[0] == [v][0];
  }

  /** A stored field other than `id` comes back through `from`. */
  lemma ShownField(ref: nat, data: Record, key: string)
    requires key in data && key != "id"
    ensures key in Shown(ref, data) && Shown(ref, data)[key] == FromStoreValue(data[key])
  {
    assert Flatten(Doc(ref, data))[key] == data[key];
  }

  /** A plain record the framework stores comes back as it was, with the `id` of its reference. */
  lemma ShownPlainRecord(ref: nat, data: Record)
    requires Plain(data)
    ensures Shown(ref, ToStore(data)) == data["id" := Str(IdString(ref))]
  {
    FromToRoundTrip(data);
    var shown := Shown(ref, ToStore(data));
    var expected := data["id" := Str(IdString(ref))];
    assert shown.Keys == expected.Keys;
    forall key | key in shown ensures shown[key] == expected[key] {
      if key != "id" {
        assert Flatten(Doc(ref, ToStore(data)))[key] == ToStore(data)[key];
        assert FromStore(ToStore(data))[key] == data[key];
      }
    }
  }

  /** The returned fields of a verification token do not depend on its reference. */
  lemma ShownWithoutId(ref: nat, data: Record)
    ensures Shown(ref, data) - {"id"} == FromStore(data) - {"id"}
    ensures "id" !in Shown(ref, data) - {"id"}
  {
    var a := Shown(ref, data) - {"id"};
    var b := FromStore(data) - {"id"};
    assert a.Keys == b.Keys;
    forall key | key in a ensures a[key] == b[key] {
      assert Flatten(Doc(ref, data))[key] == data[key];
    }
  }

  /** After a token is consumed no document answers to its key any more. */
  lemma {:induction false} ConsumedTokenIsGone(s: DbState, key: seq<Value>, ref: nat)
    requires s.Valid()
    requires ref in Matching(s, VerificationTokenByIdentifierAndToken, key)
    ensures Matching(s.Remove(VerificationTokens, ref), VerificationTokenByIdentifierAndToken, key) == {}
  {
    var terms := VerificationTokenByIdentifierAndToken.Terms();
    assert UniqueUnder(s.verificationTokens, UniqueIndex(VerificationTokens).Terms());
    var after := Matching(s.Remove(VerificationTokens, ref), VerificationTokenByIdentifierAndToken, key);
    forall other | other in after ensures false {
      MatchAtMostOne(s.verificationTokens, terms, key, other, ref);
    }
  }

  /** A session and its user, as `getSessionAndUser` returns them. */
  datatype SessionAndUser = SessionAndUser(session: Record, user: Option<Record>)

  /** The adapter object, closed over the store client `f`. */
  class Adapter {
    const f: Database

    /** `customFaunaAdapter(f)`. */
    constructor (f: Database)
      ensures this.f == f
    {
      this.f := f;
    }

    /** `createUser(data)`. */
    method CreateUser(data: Record) returns (r: Result<Option<Record>, StoreError>)
      requires f.Valid()
      modifies f
      ensures f.Valid()
      ensures Collides(old(f.state).users, UserByEmail.Terms(), ToStore(data)) ==>
                r == Failure(NotUniqueError) && f.state == old(f.state)
      ensures !Collides(old(f.state).users, UserByEmail.Terms(), ToStore(data)) ==>
                r == Success(Some(Shown(old(f.state).nextId, ToStore(data))))
                && f.state == old(f.state).Insert(Users, ToStore(data))
    {
      var stored := To(data);
      var response := f.Create(Users, stored);
      StoreErrorsClassified();
      r := Normalize(response);
    }

    /** `getUser(id)`: never rejects; null for a malformed or unknown id. */
    method GetUser(id: Value) returns (r: Result<Option<Record>, StoreError>)
      ensures r == Success(UserById(f.state, id))
    {
      StoreErrorsClassified();
      r := Normalize(f.Get(Users, id));
    }

    /** `getUserByEmail(email)`: never rejects; null when no user has that email. */
    method GetUserByEmail(email: Value) returns (r: Result<Option<Record>, StoreError>)
      requires f.Valid()
      ensures r.Success?
      ensures Matching(f.state, UserByEmail, [email]) == {} ==> r.value == None
      ensures forall ref :: ref in Matching(f.state, UserByEmail, [email]) ==>
                r.value == Some(Shown(ref, f.state.users[ref]))
      ensures r.value.Some? ==> Field(r.value.value, "email") == FromStoreValue(email)
    {
      StoreErrorsClassified();
      var response := f.GetMatch(UserByEmail, [email]);
      r := Normalize(response);
      if response.Answer? {
        var doc := response.doc.value;
        SingleTermMatch(doc.data, "email", email);
        ShownField(doc.ref, doc.data, "email");
      }
    }

    /** `getUserByAccount({ provider, providerAccountId })`: null when no account has
        that key; otherwise the user the account's stored `userId` designates. */
    method GetUserByAccount(provider: Value, providerAccountId: Value) returns (r: Result<Option<Record>, StoreError>)
      requires f.Valid()
      ensures r.Success?
      ensures Matching(f.state, AccountByProviderAndProviderAccountId, [provider, providerAccountId]) == {} ==>
                r.value == None
      ensures forall ref :: ref in Matching(f.state, AccountByProviderAndProviderAccountId, [provider, providerAccountId]) ==>
                r.value == UserById(f.state, Field(f.state.accounts[ref], "userId"))
    {
      StoreErrorsClassified();
      var key := [provider, providerAccountId];
      var response: Response;
      // no account under the key: the lookup yields null (customFaunaAdapter.js:118-122);
      // otherwise the user named by the account's stored `userId` is fetched
      if Matching(f.state, AccountByProviderAndProviderAccountId, key) == {} {
        response := Answer(None);
      } else {
        var account := f.GetMatch(AccountByProviderAndProviderAccountId, key);
        var data := account.doc.value.data;
        if "userId" !in data {
          response := Raised(ValueNotFoundError);
        } else {
          response := f.Get(Users, data["userId"]);
        }
      }
      r := Normalize(response);
    }

    /** `updateUser(data)`: merges `to(data)` into the user `data.id` designates;
        null for a malformed or unknown id, rejected when the email is taken. */
    method UpdateUser(data: Record) returns (r: Result<Option<Record>, StoreError>)
      requires f.Valid()
      modifies f
      ensures f.Valid()
      ensures ResolveRef(Field(data, "id")).None? || ResolveRef(Field(data, "id")).value !in old(f.state).users ==>
                r == Success(None) && f.state == old(f.state)
      ensures ResolveRef(Field(data, "id")).Some? && ResolveRef(Field(data, "id")).value in old(f.state).users ==>
                var ref := ResolveRef(Field(data, "id")).value;
                var merged := old(f.state).users[ref] + ToStore(data);
                if Collides(old(f.state).users - {ref}, UserByEmail.Terms(), merged)
                then r == Failure(NotUniqueError) && f.state == old(f.state)
                else r == Success(Some(Shown(ref, merged))) && f.state == old(f.state).Replace(Users, ref, merged)
    {
      StoreErrorsClassified();
      var stored := To(data);
      var response: Response;
      match ResolveRef(Field(data, "id")) {
        case None =>
          response := Raised(BadRefError);
        case Some(ref) =>
          response := f.Update(Users, ref, stored);
      }
      r := Normalize(response);
    }

    /** `deleteUser(userId)`, corrected: one transaction deleting every session and
        account indexed under `userId`, then the user, which is the full cascade. The
        code as written deletes only the first page of each; see `DeleteUserAsWritten`.
        The store client is called directly, so a malformed or unknown id rejects,
        and then nothing is deleted. */
    method DeleteUser(userId: Value) returns (r: Outcome<StoreError>)
      requires f.Valid()
      modifies f
      ensures f.Valid()
      ensures r.Pass? <==> ResolveRef(userId).Some? && ResolveRef(userId).value in old(f.state).users
      ensures r.Fail? ==> f.state == old(f.state)
      ensures r.Fail? ==> r.error == if ResolveRef(userId).None? then BadRefError else NotFoundError
      ensures r.Pass? ==> f.state == Cascade(old(f.state), ResolveRef(userId).value, userId)
    {
      var saved := f.state;
      // deletes every session indexed under `userId`; the code as written deletes
      // only the first page (customFaunaAdapter.js:132-135), see `DeleteUserAsWritten`
      f.DeleteEach(Sessions, Matching(f.state, SessionsByUser, [userId]));
      assert f.state.accounts == saved.accounts;
      // likewise every account indexed under `userId` (customFaunaAdapter.js:136-139)
      f.DeleteEach(Accounts, Matching(f.state, AccountsByUser, [userId]));
      // then the user itself (customFaunaAdapter.js:140); if that fails, the whole
      // transaction is aborted and the saved store is put back
      match ResolveRef(userId)
      case None =>
        f.Restore(saved);
        r := Fail(BadRefError);
      case Some(ref) =>
        var response := f.Delete(Users, ref);
        if response.Raised? {
          f.Restore(saved);
          r := Fail(response.error);
        } else {
          r := Pass;
        }
    }

    /** `linkAccount(data)`. */
    method LinkAccount(data: Record) returns (r: Result<Option<Record>, StoreError>)
      requires f.Valid()
      modifies f
      ensures f.Valid()
      ensures Collides(old(f.state).accounts, AccountByProviderAndProviderAccountId.Terms(), ToStore(data)) ==>
                r == Failure(NotUniqueError) && f.state == old(f.state)
      ensures !Collides(old(f.state).accounts, AccountByProviderAndProviderAccountId.Terms(), ToStore(data)) ==>
                r == Success(Some(Shown(old(f.state).nextId, ToStore(data))))
                && f.state == old(f.state).Insert(Accounts, ToStore(data))
    {
      var stored := To(data);
      var response := f.Create(Accounts, stored);
      StoreErrorsClassified();
      r := Normalize(response);
    }

    /** `unlinkAccount({ provider, providerAccountId })`: deletes the matching account;
        resolves either way, doing nothing when there is none. */
    method UnlinkAccount(provider: Value, providerAccountId: Value) returns (r: Outcome<StoreError>)
      requires f.Valid()
      modifies f
      ensures f.Valid()
      ensures r == Pass
      ensures Matching(old(f.state), AccountByProviderAndProviderAccountId, [provider, providerAccountId]) == {} ==>
                f.state == old(f.state)
      ensures forall ref :: ref in Matching(old(f.state), AccountByProviderAndProviderAccountId, [provider, providerAccountId]) ==>
                f.state == old(f.state).Remove(Accounts, ref)
    {
      StoreErrorsClassified();
      // looks the account up by its provider pair and deletes it by its reference
      // (customFaunaAdapter.js:148-150); a failed lookup is passed on to the wrapper
      var found := f.GetMatch(AccountByProviderAndProviderAccountId, [provider, providerAccountId]);
      var response: Response;
      if found.Raised? {
        response := found;
      } else {
        response := f.Delete(Accounts, found.doc.value.ref);
      }
      match Normalize(response)
      case Failure(e) =>
        r := Fail(e);
      case Success(_) =>
        r := Pass;
    }

    /** `createSession(data)`. */
    method CreateSession(data: Record) returns (r: Result<Option<Record>, StoreError>)
      requires f.Valid()
      modifies f
      ensures f.Valid()
      ensures Collides(old(f.state).sessions, SessionByToken.Terms(), ToStore(data)) ==>
                r == Failure(NotUniqueError) && f.state == old(f.state)
      ensures !Collides(old(f.state).sessions, SessionByToken.Terms(), ToStore(data)) ==>
                r == Success(Some(Shown(old(f.state).nextId, ToStore(data))))
                && f.state == old(f.state).Insert(Sessions, ToStore(data))
    {
      var stored := To(data);
      var response := f.Create(Sessions, stored);
      StoreErrorsClassified();
      r := Normalize(response);
    }

    /** `getSessionAndUser(sessionToken)`: null when the token is unknown; otherwise
        the session and the lookup of its `userId`, which may be null. */
    method GetSessionAndUser(sessionToken: Value) returns (r: Result<Option<SessionAndUser>, StoreError>)
      requires f.Valid()
      ensures r.Success?
      ensures Matching(f.state, SessionByToken, [sessionToken]) == {} ==> r.value == None
      ensures forall ref :: ref in Matching(f.state, SessionByToken, [sessionToken]) ==>
                var session := Shown(ref, f.state.sessions[ref]);
                r.value == Some(SessionAndUser(session, UserById(f.state, Field(session, "userId"))))
    {
      StoreErrorsClassified();
      var found := f.GetMatch(SessionByToken, [sessionToken]);
      match Normalize(found)
      case Failure(e) =>
        r := Failure(e);
      case Success(None) =>
        r := Success(None);
      case Success(Some(session)) =>
        var user := Normalize(f.Get(Users, Field(session, "userId")));
        assert user == Success(UserById(f.state, Field(session, "userId")));
        match user
        case Failure(e) =>
          r := Failure(e);
        case Success(u) =>
          r := Success(Some(SessionAndUser(session, u)));
    }

    /** `updateSession(data)`: merges `to(data)` into the session whose token is
        `data.sessionToken`; null when there is none. */
    method UpdateSession(data: Record) returns (r: Result<Option<Record>, StoreError>)
      requires f.Valid()
      modifies f
      ensures f.Valid()
      ensures Matching(old(f.state), SessionByToken, [Field(data, "sessionToken")]) == {} ==>
                r == Success(None) && f.state == old(f.state)
      ensures forall ref :: ref in Matching(old(f.state), SessionByToken, [Field(data, "sessionToken")]) ==>
                var merged := old(f.state).sessions[ref] + ToStore(data);
                if Collides(old(f.state).sessions - {ref}, SessionByToken.Terms(), merged)
                then r == Failure(NotUniqueError) && f.state == old(f.state)
                else r == Success(Some(Shown(ref, merged))) && f.state == old(f.state).Replace(Sessions, ref, merged)
    {
      StoreErrorsClassified();
      var stored := To(data);
      // looks the session up by its token, then merges the converted data into it
      // by its reference (customFaunaAdapter.js:162-163)
      var found := f.GetMatch(SessionByToken, [Field(data, "sessionToken")]);
      var response: Response;
      if found.Raised? {
        response := found;
      } else {
        response := f.Update(Sessions, found.doc.value.ref, stored);
      }
      r := Normalize(response);
    }

    /** `deleteSession(sessionToken)`: deletes the matching session; resolves either way. */
    method DeleteSession(sessionToken: Value) returns (r: Outcome<StoreError>)
      requires f.Valid()
      modifies f
      ensures f.Valid()
      ensures r == Pass
      ensures Matching(old(f.state), SessionByToken, [sessionToken]) == {} ==> f.state == old(f.state)
      ensures forall ref :: ref in Matching(old(f.state), SessionByToken, [sessionToken]) ==>
                f.state == old(f.state).Remove(Sessions, ref)
    {
      StoreErrorsClassified();
      // looks the session up by its token and deletes it by its reference
      // (customFaunaAdapter.js:166)
      var found := f.GetMatch(SessionByToken, [sessionToken]);
      var response: Response;
      if found.Raised? {
        response := found;
      } else {
        response := f.Delete(Sessions, found.doc.value.ref);
      }
      match Normalize(response)
      case Failure(e) =>
        r := Fail(e);
      case Success(_) =>
        r := Pass;
    }

    /** `createVerificationToken(data)`: the created record, without its `id`. */
    method CreateVerificationToken(data: Record) returns (r: Result<Record, StoreError>)
      requires f.Valid()
      modifies f
      ensures f.Valid()
      ensures Collides(old(f.state).verificationTokens, VerificationTokenByIdentifierAndToken.Terms(), ToStore(data)) ==>
                r == Failure(NotUniqueError) && f.state == old(f.state)
      ensures !Collides(old(f.state).verificationTokens, VerificationTokenByIdentifierAndToken.Terms(), ToStore(data)) ==>
                r == Success(FromStore(ToStore(data)) - {"id"})
                && f.state == old(f.state).Insert(VerificationTokens, ToStore(data))
      ensures r.Success? ==> "id" !in r.value
    {
      var stored := To(data);
      var response := f.Create(VerificationTokens, stored);
      StoreErrorsClassified();
      match Normalize(response)
      case Failure(e) =>
        r := Failure(e);
      case Success(None) =>
        // destructuring `null` throws
        r := Failure(StoreError("TypeError", "Cannot destructure null"));
      case Success(Some(created)) =>
        ShownWithoutId(old(f.state).nextId, stored);
        r := Success(created - {"id"});
    }

    /** `useVerificationToken({ identifier, token })`: null, with the store untouched,
        when no token has that key; otherwise deletes it and returns its fields without `id`. */
    method UseVerificationToken(identifier: Value, token: Value) returns (r: Result<Option<Record>, StoreError>)
      requires f.Valid()
      modifies f
      ensures f.Valid()
      ensures Matching(old(f.state), VerificationTokenByIdentifierAndToken, [identifier, token]) == {} ==>
                r == Success(None) && f.state == old(f.state)
      ensures forall ref :: ref in Matching(old(f.state), VerificationTokenByIdentifierAndToken, [identifier, token]) ==>
                r == Success(Some(FromStore(old(f.state).verificationTokens[ref]) - {"id"}))
                && f.state == old(f.state).Remove(VerificationTokens, ref)
      ensures r.Success? && r.value.Some? ==> "id" !in r.value.value
      ensures Matching(f.state, VerificationTokenByIdentifierAndToken, [identifier, token]) == {}
    {
      StoreErrorsClassified();
      var key := [identifier, token];
      // first round trip: the token under `[identifier, token]` (customFaunaAdapter.js:176-177)
      var found := f.GetMatch(VerificationTokenByIdentifierAndToken, key);
      match Normalize(found)
      case Failure(e) =>
        r := Failure(e);
      case Success(None) =>
        r := Success(None);
      case Success(Some(verificationToken)) =>
        ghost var ref := found.doc.value.ref;
        // second round trip: the same lookup is evaluated again, and the document
        // it finds is deleted by its reference (customFaunaAdapter.js:179)
        var again := f.GetMatch(VerificationTokenByIdentifierAndToken, key);
        var response: Response;
        if again.Raised? {
          response := again;
        } else {
          response := f.Delete(VerificationTokens, again.doc.value.ref);
        }
        match Normalize(response)
        case Failure(e) =>
          r := Failure(e);
        case Success(_) =>
          ShownWithoutId(ref, old(f.state).verificationTokens[ref]);
          ConsumedTokenIsGone(old(f.state), key, ref);
          var consumed := verificationToken;
          consumed := consumed - {"id"};   // the `id` key is dropped before returning
          r := Success(Some(consumed));
    }
  }

  /** Consuming the same token twice: the second call finds nothing. */
  method UseVerificationTokenTwice(adapter: Adapter, identifier: Value, token: Value)
    returns (first: Result<Option<Record>, StoreError>, second: Result<Option<Record>, StoreError>)
    requires adapter.f.Valid()
    modifies adapter.f
    ensures first.Success?
    ensures first.value.Some? <==>
              Matching(old(adapter.f.state), VerificationTokenByIdentifierAndToken, [identifier, token]) != {}
    ensures second == Success(None)
  {
    first := adapter.UseVerificationToken(identifier, token);
    second := adapter.UseVerificationToken(identifier, token);
  }

  /** `deleteUser` as written: `Paginate` returns only the first page of each
      by-user index, so only that many sessions and accounts are deleted. */
  ghost function DeleteUserAsWritten(s: DbState, userId: Value): (r: Result<DbState, StoreError>)
    ensures r.Success? <==> ResolveRef(userId).Some? && ResolveRef(userId).value in s.users
  {
    match ResolveRef(userId)
    case None => Failure(BadRefError)
    case Some(ref) =>
      if ref !in s.users then Failure(NotFoundError)
      else Success(CascadePages(s, ref, FirstPage(Matching(s, SessionsByUser, [userId]), DefaultPageSize),
                                        FirstPage(Matching(s, AccountsByUser, [userId]), DefaultPageSize)))
  }

  /** With more sessions than fit on a page, the code as written leaves sessions
      of the deleted user behind. */
  lemma DeleteUserAsWrittenLeavesOrphans(s: DbState, userId: Value)
    requires ResolveRef(userId).Some? && ResolveRef(userId).value in s.users
    requires |Matching(s, SessionsByUser, [userId])| > DefaultPageSize
    ensures DeleteUserAsWritten(s, userId).Success?
    ensures Matching(DeleteUserAsWritten(s, userId).value, SessionsByUser, [userId]) != {}
  {
    var owned := Matching(s, SessionsByUser, [userId]);
    var sessionsPage := FirstPage(owned, DefaultPageSize);
    var accountsPage := FirstPage(Matching(s, AccountsByUser, [userId]), DefaultPageSize);
    FirstPageLeavesSome(owned, DefaultPageSize);
    var orphan :| orphan in owned - sessionsPage;
    SessionSurvivesCascade(s, ResolveRef(userId).value, sessionsPage, accountsPage, userId, orphan);
  }

  /** Within one page, the code as written does what the cascade intends. */
  lemma DeleteUserAsWrittenWithinOnePage(s: DbState, userId: Value)
    requires ResolveRef(userId).Some? && ResolveRef(userId).value in s.users
    requires |Matching(s, SessionsByUser, [userId])| <= DefaultPageSize
    requires |Matching(s, AccountsByUser, [userId])| <= DefaultPageSize
    ensures DeleteUserAsWritten(s, userId) == Success(Cascade(s, ResolveRef(userId).value, userId))
  {
    FirstPageOfSmallSet(Matching(s, SessionsByUser, [userId]), DefaultPageSize);
    FirstPageOfSmallSet(Matching(s, AccountsByUser, [userId]), DefaultPageSize);
  }
}
