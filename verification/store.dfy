/**
 * The document store the adapter talks to, as far as the adapter's queries
 * reach it: four collections of documents keyed by reference, six indexes
 * over their data fields, and the primitive expressions the adapter
 * composes (`Create`, `Get`, `Update`, `Delete`, `Match`).
 */
module Store {
  import opened Values
  import opened Wrappers
  import opened RefIds
  import opened Query

  /** The collections `users`, `accounts`, `sessions` and `verification_tokens`. */
  datatype Coll = Users | Accounts | Sessions | VerificationTokens

  /** The indexes the adapter matches on, by the data fields they are keyed on. */
  datatype Index =
    | AccountByProviderAndProviderAccountId
    | UserByEmail
    | SessionByToken
    | VerificationTokenByIdentifierAndToken
    | SessionsByUser
    | AccountsByUser
  {
    /** The collection the index covers. */
    function Source(): Coll {
      match this
      case AccountByProviderAndProviderAccountId => Accounts
      case UserByEmail => Users
      case SessionByToken => Sessions
      case VerificationTokenByIdentifierAndToken => VerificationTokens
      case SessionsByUser => Sessions
      case AccountsByUser => Accounts
    }

    /** The data fields the index is keyed on, in key order. */
    function Terms(): seq<string> {
      match this
      case AccountByProviderAndProviderAccountId => ["provider", "providerAccountId"]
      case UserByEmail => ["email"]
      case SessionByToken => ["sessionToken"]
      case VerificationTokenByIdentifierAndToken => ["identifier", "token"]
      case SessionsByUser => ["userId"]
      case AccountsByUser => ["userId"]
    }

    /** Only the two by-user indexes admit several documents per key. */
    predicate IsUnique() {
      !SessionsByUser? && !AccountsByUser?
    }
  }

  /** The unique index over each collection. */
  function UniqueIndex(c: Coll): (i: Index)
    ensures i.IsUnique() && i.Source() == c
  {
    match c
    case Users => UserByEmail
    case Accounts => AccountByProviderAndProviderAccountId
    case Sessions => SessionByToken
    case VerificationTokens => VerificationTokenByIdentifierAndToken
  }

  /** The key a document has in an index, or None when it lacks one of the fields. */
  function IndexKey(data: Record, terms: seq<string>): (key: Option<seq<Value>>)
    ensures key.Some? ==> |key.value| == |terms|
    decreases |terms|
  {
    if terms == [] then Some([])
    else if terms[0] !in data then None
    else match IndexKey(data, terms[1..])
      case None => None
      case Some(rest) => Some([data[terms[0]]] + rest)
  }

  /** `Match(index, key)`: the references of the documents with that key. */
  function MatchSet(docs: map<nat, Record>, terms: seq<string>, key: seq<Value>): (refs: set<nat>)
    ensures refs <= docs.Keys
  {
    set ref | ref in docs && IndexKey(docs[ref], terms) == Some(key)
  }

  /** Whether storing `data` beside `docs` would give two documents the same key. */
  predicate Collides(docs: map<nat, Record>, terms: seq<string>, data: Record) {
    IndexKey(data, terms).Some? && exists ref :: ref in docs && IndexKey(docs[ref], terms) == IndexKey(data, terms)
  }

  /** No two documents share a key in the index. */
  ghost predicate UniqueUnder(docs: map<nat, Record>, terms: seq<string>) {
    forall a, b :: a in docs && b in docs && a != b && IndexKey(docs[a], terms).Some? ==>
      IndexKey(docs[a], terms) != IndexKey(docs[b], terms)
  }

  /** In a unique index a key matches at most one document. */
  lemma MatchAtMostOne(docs: map<nat, Record>, terms: seq<string>, key: seq<Value>, a: nat, b: nat)
    requires UniqueUnder(docs, terms)
    requires a in MatchSet(docs, terms, key) && b in MatchSet(docs, terms, key)
    ensures a == b
  {
  }

  /** The contents of the store. `nextId` is above every reference handed out. */
  datatype DbState = DbState(
    users: map<nat, Record>,
    accounts: map<nat, Record>,
    sessions: map<nat, Record>,
    verificationTokens: map<nat, Record>,
    nextId: nat)
  {
    function Docs(c: Coll): map<nat, Record> {
      match c
      case Users => users
      case Accounts => accounts
      case Sessions => sessions
      case VerificationTokens => verificationTokens
    }

    /** The state with collection `c` replaced and everything else as it was. */
    function WithDocs(c: Coll, docs: map<nat, Record>): (s: DbState)
      ensures s.Docs(c) == docs && s.nextId == nextId
      ensures forall other :: other != c ==> s.Docs(other) == Docs(other)
    {
      match c
      case Users => this.(users := docs)
      case Accounts => this.(accounts := docs)
      case Sessions => this.(sessions := docs)
      case VerificationTokens => this.(verificationTokens := docs)
    }

    /** A new document under the next reference. */
    function Insert(c: Coll, data: Record): DbState {
      WithDocs(c, Docs(c)[nextId := data]).(nextId := nextId + 1)
    }

    /** Document `ref` holds `data` from now on. */
    function Replace(c: Coll, ref: nat, data: Record): DbState {
      WithDocs(c, Docs(c)[ref := data])
    }

    /** Document `ref` is gone. */
    function Remove(c: Coll, ref: nat): DbState {
      WithDocs(c, Docs(c) - {ref})
    }

    /** References are below `nextId`, and every unique index holds. */
    ghost predicate Valid() {
      && (forall c, ref :: ref in Docs(c) ==> ref < nextId)
      && (forall c :: UniqueUnder(Docs(c), UniqueIndex(c).Terms()))
    }
  }

  /** Replacing a collection twice keeps only the second replacement. */
  lemma WithDocsTwice(s: DbState, c: Coll, first: map<nat, Record>, second: map<nat, Record>)
    ensures s.WithDocs(c, first).WithDocs(c, second) == s.WithDocs(c, second)
  {
  }

  lemma InsertKeepsValid(s: DbState, c: Coll, data: Record)
    requires s.Valid() && !Collides(s.Docs(c), UniqueIndex(c).Terms(), data)
    ensures s.Insert(c, data).Valid()
  {
    var t := s.Insert(c, data);
    forall other ensures UniqueUnder(t.Docs(other), UniqueIndex(other).Terms()) {
      if other == c {
        var terms := UniqueIndex(c).Terms();
        forall a, b | a in t.Docs(c) && b in t.Docs(c) && a != b && IndexKey(t.Docs(c)[a], terms).Some?
          ensures IndexKey(t.Docs(c)[a], terms) != IndexKey(t.Docs(c)[b], terms)
        {
          if a == s.nextId {
            assert b in s.Docs(c);
          } else if b == s.nextId {
            assert a in s.Docs(c);
          }
        }
      }
    }
  }

  lemma ReplaceKeepsValid(s: DbState, c: Coll, ref: nat, data: Record)
    requires s.Valid() && ref in s.Docs(c)
    requires !Collides(s.Docs(c) - {ref}, UniqueIndex(c).Terms(), data)
    ensures s.Replace(c, ref, data).Valid()
  {
    var t := s.Replace(c, ref, data);
    forall other ensures UniqueUnder(t.Docs(other), UniqueIndex(other).Terms()) {
      if other == c {
        var terms := UniqueIndex(c).Terms();
        forall a, b | a in t.Docs(c) && b in t.Docs(c) && a != b && IndexKey(t.Docs(c)[a], terms).Some?
          ensures IndexKey(t.Docs(c)[a], terms) != IndexKey(t.Docs(c)[b], terms)
        {
          if a == ref {
            assert b in s.Docs(c) - {ref};
          } else if b == ref {
            assert a in s.Docs(c) - {ref};
          }
        }
      }
    }
  }

  lemma RemoveKeepsValid(s: DbState, c: Coll, ref: nat)
    requires s.Valid()
    ensures s.Remove(c, ref).Valid()
  {
    var t := s.Remove(c, ref);
    forall other ensures UniqueUnder(t.Docs(other), UniqueIndex(other).Terms()) {
      assert t.Docs(other) == if other == c then s.Docs(c) - {ref} else s.Docs(other);
    }
  }

  /** The store the adapter is given (`f`), with the primitive expressions it evaluates. */
  class Database {
    var state: DbState

    ghost predicate Valid()
      reads this
    {
      state.Valid()
    }

    constructor ()
      ensures Valid()
      ensures state == DbState(map[], map[], map[], map[], 0)
    {
      state := DbState(map[], map[], map[], map[], 0);
    }

    /** `Create(collection, { data })`: stores `data` under a fresh reference,
        unless that would break the collection's unique index. */
    method Create(c: Coll, data: Record) returns (response: Response)
      requires Valid()
      modifies this
      ensures Valid()
      ensures Collides(old(state).Docs(c), UniqueIndex(c).Terms(), data) ==>
                response == Raised(NotUniqueError) && state == old(state)
      ensures !Collides(old(state).Docs(c), UniqueIndex(c).Terms(), data) ==>
                response == Answer(Some(Doc(old(state).nextId, data))) && state == old(state).Insert(c, data)
                && old(state).nextId !in old(state).Docs(c)
    {
      if Collides(state.Docs(c), UniqueIndex(c).Terms(), data) {
        response := Raised(NotUniqueError);
        return;
      }
      var ref := state.nextId;
      InsertKeepsValid(state, c, data);
      state := state.Insert(c, data);
      response := Answer(Some(Doc(ref, data)));
    }

    /** `Get(Ref(collection, id))`. */
    function Get(c: Coll, id: Value): (response: Response)
      reads this
      ensures response.Answer? ==> response.doc.Some? && response.doc.value.ref in state.Docs(c)
      ensures response.Raised? ==> response.error in {BadRefError, NotFoundError}
    {
      match ResolveRef(id)
      case None => Raised(BadRefError)
      case Some(ref) => if ref in state.Docs(c) then Answer(Some(Doc(ref, state.Docs(c)[ref]))) else Raised(NotFoundError)
    }

    /** `Get(Match(index, key))` on a unique index: the one matching document, or not found. */
    method GetMatch(i: Index, key: seq<Value>) returns (response: Response)
      requires Valid() && i.IsUnique()
      ensures MatchSet(state.Docs(i.Source()), i.Terms(), key) == {} ==> response == Raised(NotFoundError)
      ensures MatchSet(state.Docs(i.Source()), i.Terms(), key) != {} ==>
                response.Answer? && response.doc.Some? &&
                MatchSet(state.Docs(i.Source()), i.Terms(), key) == {response.doc.value.ref} &&
                response.doc.value.data == state.Docs(i.Source())[response.doc.value.ref]
    {
      var docs := state.Docs(i.Source());
      var found := MatchSet(docs, i.Terms(), key);
      if found == {} {
        response := Raised(NotFoundError);
        return;
      }
      var ref :| ref in found;
      assert UniqueIndex(i.Source()) == i;
      forall other | other in found ensures other == ref {
        MatchAtMostOne(docs, i.Terms(), key, other, ref);
      }
      assert found == {ref};
      response := Answer(Some(Doc(ref, docs[ref])));
    }

    /** `Update(ref, { data })`: merges `data` over the document's fields,
        unless the document is missing or the result would break the unique index. */
    method Update(c: Coll, ref: nat, data: Record) returns (response: Response)
      requires Valid()
      modifies this
      ensures Valid()
      ensures ref !in old(state).Docs(c) ==> response == Raised(NotFoundError) && state == old(state)
      ensures ref in old(state).Docs(c) ==>
                var merged := old(state).Docs(c)[ref] + data;
                if Collides(old(state).Docs(c) - {ref}, UniqueIndex(c).Terms(), merged)
                then response == Raised(NotUniqueError) && state == old(state)
                else response == Answer(Some(Doc(ref, merged))) && state == old(state).Replace(c, ref, merged)
    {
      if ref !in state.Docs(c) {
        response := Raised(NotFoundError);
        return;
      }
      var merged := state.Docs(c)[ref] + data;
      if Collides(state.Docs(c) - {ref}, UniqueIndex(c).Terms(), merged) {
        response := Raised(NotUniqueError);
        return;
      }
      ReplaceKeepsValid(state, c, ref, merged);
      state := state.Replace(c, ref, merged);
      response := Answer(Some(Doc(ref, merged)));
    }

    /** `Delete(ref)`: removes the document and answers with it. */
    method Delete(c: Coll, ref: nat) returns (response: Response)
      requires Valid()
      modifies this
      ensures Valid()
      ensures ref !in old(state).Docs(c) ==> response == Raised(NotFoundError) && state == old(state)
      ensures ref in old(state).Docs(c) ==>
                response == Answer(Some(Doc(ref, old(state).Docs(c)[ref]))) && state == old(state).Remove(c, ref)
    {
      if ref !in state.Docs(c) {
        response := Raised(NotFoundError);
        return;
      }
      response := Answer(Some(Doc(ref, state.Docs(c)[ref])));
      RemoveKeepsValid(state, c, ref);
      state := state.Remove(c, ref);
    }

    /** Aborting a transaction: puts back the valid store saved before it began. */
    method Restore(saved: DbState)
      requires saved.Valid()
      modifies this
      ensures Valid()
      ensures state == saved
    {
      state := saved;
    }

    /** `Foreach` over a set of references with a `Delete` of each: deletes the listed
        documents one by one. */
    method DeleteEach(c: Coll, refs: set<nat>)
      requires Valid() && refs <= state.Docs(c).Keys
      modifies this
      ensures Valid()
      ensures state == old(state).WithDocs(c, old(state).Docs(c) - refs)
    {
      ghost var saved := state;
      var pending := refs;
      while pending != {}
        invariant Valid()
        invariant pending <= refs
        invariant state == saved.WithDocs(c, saved.Docs(c) - (refs - pending))
        decreases pending
      {
        var ref :| ref in pending;
        ghost var before := saved.Docs(c) - (refs - pending);
        var _ := Delete(c, ref);
        WithDocsTwice(saved, c, before, before - {ref});
        assert before - {ref} == saved.Docs(c) - (refs - (pending - {ref}));
        pending := pending - {ref};
      }
    }
  }
}
