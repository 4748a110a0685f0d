/**
 * `POST /spaces`: validate the requested name and owner, then allocate a
 * space id and insert the space in one transaction, and describe the new
 * space in a 201 reply.
 */
module SpaceController {
  import opened Wrappers
  import opened Text
  import opened Pattern
  import opened Exceptions

  /** A field read with `getString`: its text, or the JSONException message
      the JSON library raises when the field is missing or not a string. */
  datatype Field = Str(value: string) | Bad(message: string)

  /** The request body: not a JSON object at all, or an object whose two
      relevant fields have been looked up. */
  datatype Request =
    | Unparseable(message: string)
    | JsonObject(name: Field, owner: Field)

  /** One row of the `spaces` table. */
  datatype Space = Space(name: string, owner: string)

  /**
   * The part of the database this route touches: the `spaces` table keyed
   * by space id, and the next value of `space_id_seq`.
   */
  datatype Store = Store(spaces: map<nat, Space>, nextId: nat) {
    /** The sequence is ahead of every id already in the table. */
    predicate Valid() {
      forall id :: id in spaces ==> id < nextId
    }
  }

  /** A fresh database: empty table, sequence starting at 1. */
  const EmptyStore: Store := Store(map[], 1)

  /** A fresh database satisfies the store invariant. */
  lemma EmptyStoreValid()
    ensures EmptyStore.Valid()
  {
  }

  /** What the route reports on success: the id, the `Location` value and the JSON body. */
  datatype Created = Created(spaceId: nat, location: string, body: map<string, string>)

  /** The store after the request, and the route's outcome. */
  datatype Step = Step(store: Store, outcome: Result<Created, Exception>)

  const MaxNameLength: nat := 255
  const NameTooLong := "space name is too long"
  const InvalidUsername := "Invalid username"
  const SpacesPrefix := "/spaces/"

  /** The URI of the space with id `id`. */
  function SpaceUri(id: nat): string {
    SpacesPrefix + NatToDecimal(id)
  }

  /** The space id named by a URI of the form `/spaces/<digits>`. */
  function SpaceIdOf(uri: string): Option<nat> {
    if |uri| >= |SpacesPrefix| && uri[..|SpacesPrefix|] == SpacesPrefix
    then ParseDecimal(uri[|SpacesPrefix|..])
    else None
  }

  /** A space's URI names that space. */
  lemma SpaceUriRoundTrip(id: nat)
    ensures SpaceIdOf(SpaceUri(id)) == Some(id)
  {
    var uri := SpaceUri(id);
    assert uri[..|SpacesPrefix|] == SpacesPrefix;
    assert uri[|SpacesPrefix|..] == NatToDecimal(id);
    DecimalRoundTrip(id);
  }

  /** Distinct spaces have distinct URIs. */
  lemma SpaceUriInjective(a: nat, b: nat)
    ensures SpaceUri(a) == SpaceUri(b) ==> a == b
  {
    var prefix := SpacesPrefix;
    if SpaceUri(a) == SpaceUri(b) {
      assert SpaceUri(a)[|prefix|..] == NatToDecimal(a);
      assert SpaceUri(b)[|prefix|..] == NatToDecimal(b);
      DecimalInjective(a, b);
    }
  }

  /** The requests the route accepts: both fields present as strings, a name
      of at most 255 UTF-16 code units and an owner satisfying the owner rule. */
  predicate Acceptable(req: Request) {
    && req.JsonObject?
    && req.name.Str?
    && req.owner.Str?
    && Utf16Length(req.name.value) <= MaxNameLength
    && IsValidOwner(req.owner.value)
  }

  /** The transaction: take the next sequence value and insert the row under it. */
  function Insert(st: Store, space: Space): (r: (nat, Store))
    requires st.Valid()
    ensures r.0 == st.nextId
    ensures r.0 !in st.spaces
    ensures r.1.Valid()
    ensures r.1.spaces.Keys == st.spaces.Keys + {r.0}
    ensures r.1.spaces[r.0] == space
    ensures forall id :: id in st.spaces ==> r.1.spaces[id] == st.spaces[id]
  {
    var id := st.nextId;
    (id, Store(st.spaces[id := space], id + 1))
  }

  /**
   * The route. The checks run in the order `createSpace` performs them (body, name field, name
   * length, owner field, owner pattern) and every failure happens before the
   * transaction, so it leaves the store as it was.
   */
  function CreateSpace(st: Store, req: Request): (r: Step)
    requires st.Valid()
    ensures r.store.Valid()
    ensures r.outcome.Success? <==> Acceptable(req)
    ensures r.outcome.Failure? ==> r.store == st
    ensures r.outcome.Failure? ==> r.outcome.error.IllegalArgument? || r.outcome.error.Json?
    ensures req.Unparseable? ==> r.outcome == Failure(Json(req.message))
    ensures req.JsonObject? && req.name.Bad? ==> r.outcome == Failure(Json(req.name.message))
    ensures req.JsonObject? && req.name.Str? && Utf16Length(req.name.value) > MaxNameLength
            ==> r.outcome == Failure(IllegalArgument(NameTooLong))
    ensures req.JsonObject? && req.name.Str? && Utf16Length(req.name.value) <= MaxNameLength
            && req.owner.Bad?
            ==> r.outcome == Failure(Json(req.owner.message))
    ensures req.JsonObject? && req.name.Str? && Utf16Length(req.name.value) <= MaxNameLength
            && req.owner.Str? && !IsValidOwner(req.owner.value)
            ==> r.outcome == Failure(IllegalArgument(InvalidUsername))
    ensures r.outcome.Success? ==>
              var c := r.outcome.value;
              && c.spaceId == st.nextId
              && c.spaceId !in st.spaces
              && r.store.spaces == st.spaces[c.spaceId := Space(req.name.value, req.owner.value)]
              && c.location == SpaceUri(c.spaceId)
              && SpaceIdOf(c.location) == Some(c.spaceId)
              && c.body.Keys == {"name", "uri"}
              && c.body["name"] == req.name.value
              && c.body["uri"] == c.location
  {
    match req
    case Unparseable(msg) => Step(st, Failure(Json(msg)))
    case JsonObject(nameField, ownerField) =>
      match nameField
      case Bad(msg) => Step(st, Failure(Json(msg)))
      case Str(name) =>
        if Utf16Length(name) > MaxNameLength then Step(st, Failure(IllegalArgument(NameTooLong)))
        else
          match ownerField
          case Bad(msg) => Step(st, Failure(Json(msg)))
          case Str(owner) =>
            OwnerPatternMeaning(owner);
            if !Matches(OwnerPattern, owner) then Step(st, Failure(IllegalArgument(InvalidUsername)))
            else
              var (id, st') := Insert(st, Space(name, owner));
              var uri := SpaceUri(id);
              SpaceUriRoundTrip(id);
              Step(st', Success(Created(id, uri, map["name" := name, "uri" := uri])))
  }

  /** Each created space can be looked up again through its URI, and holds
      the requested name and owner. */
  lemma CreatedSpaceIsRetrievable(st: Store, req: Request)
    requires st.Valid()
    requires Acceptable(req)
    ensures
      var r := CreateSpace(st, req);
      var id := SpaceIdOf(r.outcome.value.location);
      && id.Some?
      && id.value in r.store.spaces
      && r.store.spaces[id.value] == Space(req.name.value, req.owner.value)
  {
  }

  /** Two creates in a row get different ids and different locations, and
      the first space is still there after the second. */
  lemma SuccessiveCreatesAreDistinct(st: Store, req1: Request, req2: Request)
    requires st.Valid()
    requires Acceptable(req1) && Acceptable(req2)
    ensures
      var r1 := CreateSpace(st, req1);
      var r2 := CreateSpace(r1.store, req2);
      && r1.outcome.value.spaceId != r2.outcome.value.spaceId
      && r1.outcome.value.location != r2.outcome.value.location
      && r2.store.spaces[r1.outcome.value.spaceId] == Space(req1.name.value, req1.owner.value)
  {
  }

  /** The requests of a run that the route accepts, in their original order. */
  function Accepted(reqs: seq<Request>): (a: seq<Request>)
    ensures |a| <= |reqs|
    ensures forall i :: 0 <= i < |a| ==> Acceptable(a[i])
    ensures forall q :: q in a <==> q in reqs && Acceptable(q)
  {
    if reqs == [] then []
    else if Acceptable(reqs[0]) then [reqs[0]] + Accepted(reqs[1..])
    else Accepted(reqs[1..])
  }

  /**
   * Runs the requests one after another (each transaction is atomic, so any
   * concurrent schedule has this shape) and lists the ids handed out.
   */
  function CreateAll(st: Store, reqs: seq<Request>): (r: (Store, seq<nat>))
    requires st.Valid()
    ensures r.0.Valid()
    ensures st.nextId <= r.0.nextId
    ensures forall id :: id in st.spaces ==> id in r.0.spaces && r.0.spaces[id] == st.spaces[id]
    ensures forall i :: 0 <= i < |r.1| ==> st.nextId <= r.1[i] < r.0.nextId && r.1[i] in r.0.spaces
    ensures forall i, j :: 0 <= i < j < |r.1| ==> r.1[i] < r.1[j]
    ensures |r.1| == |Accepted(reqs)|
    decreases |reqs|
  {
    if reqs == [] then (st, [])
    else
      var step := CreateSpace(st, reqs[0]);
      var (final, ids) := CreateAll(step.store, reqs[1..]);
      if step.outcome.Success? then
        assert Accepted(reqs) == [reqs[0]] + Accepted(reqs[1..]);
        (final, [step.outcome.value.spaceId] + ids)
      else
        assert Accepted(reqs) == Accepted(reqs[1..]);
        (final, ids)
  }

  /** Each listed id is stored, holding the name and owner of the request at
      the same position. */
  predicate RowsMatch(spaces: map<nat, Space>, ids: seq<nat>, reqs: seq<Request>) {
    && |ids| == |reqs|
    && forall k :: 0 <= k < |ids| ==>
         && reqs[k].JsonObject? && reqs[k].name.Str? && reqs[k].owner.Str?
         && ids[k] in spaces
         && spaces[ids[k]] == Space(reqs[k].name.value, reqs[k].owner.value)
  }

  lemma RowsMatchCons(spaces: map<nat, Space>, id: nat, ids: seq<nat>, q: Request, reqs: seq<Request>)
    requires RowsMatch(spaces, ids, reqs)
    requires Acceptable(q) && id in spaces && spaces[id] == Space(q.name.value, q.owner.value)
    ensures RowsMatch(spaces, [id] + ids, [q] + reqs)
  {
  }

  /** The k-th id handed out in a run holds the name and owner of the k-th
      accepted request. */
  lemma {:induction false} CreateAllStoresEachAccepted(st: Store, reqs: seq<Request>)
    requires st.Valid()
    ensures var r := CreateAll(st, reqs); RowsMatch(r.0.spaces, r.1, Accepted(reqs))
    decreases |reqs|
  {
    if reqs != [] {
      var step := CreateSpace(st, reqs[0]);
      CreateAllStoresEachAccepted(step.store, reqs[1..]);
      var rest := CreateAll(step.store, reqs[1..]);
      if step.outcome.Success? {
        var id := step.outcome.value.spaceId;
        assert Accepted(reqs) == [reqs[0]] + Accepted(reqs[1..]);
        assert rest.0.spaces[id] == step.store.spaces[id];
        RowsMatchCons(rest.0.spaces, id, rest.1, reqs[0], Accepted(reqs[1..]));
      } else {
        assert Accepted(reqs) == Accepted(reqs[1..]);
      }
    }
  }

  /** A run adds no row other than those under the ids it hands out. */
  lemma {:induction false} CreateAllAddsNoOtherRow(st: Store, reqs: seq<Request>)
    requires st.Valid()
    ensures var r := CreateAll(st, reqs);
            forall id :: id in r.0.spaces ==> id in st.spaces || id in r.1
    decreases |reqs|
  {
    if reqs != [] {
      var step := CreateSpace(st, reqs[0]);
      CreateAllAddsNoOtherRow(step.store, reqs[1..]);
      var rest := CreateAll(step.store, reqs[1..]);
      if step.outcome.Success? {
        var id := step.outcome.value.spaceId;
        assert CreateAll(st, reqs) == (rest.0, [id] + rest.1);
      } else {
        assert CreateAll(st, reqs) == rest;
      }
    }
  }

  /** No id is ever handed out twice. */
  lemma AllocatedIdsAreDistinct(st: Store, reqs: seq<Request>)
    requires st.Valid()
    ensures var ids := CreateAll(st, reqs).1;
            forall i, j :: 0 <= i < |ids| && 0 <= j < |ids| && i != j ==> ids[i] != ids[j]
  {
  }
}
