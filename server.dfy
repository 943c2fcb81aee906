/**
 * The API service: the three handlers on `/api/contacts` over the contact
 * collection. Listing is a pure query; creating and deleting change the
 * collection, which `ContactStore` holds.
 *
 * A failure of the document store is the parameter `fault`: `Some(message)`
 * when the store call throws with that message, `None` when it succeeds.
 */
module Server {
  import opened Contacts
  import opened JsString

  /** Page numbers and page sizes, already parsed from the query string. */
  type Pos = x: int | x >= 1 witness 1

  const DefaultPage: Pos := 1
  const DefaultLimit: Pos := 5

  /** The optional `page` and `limit` query parameters. */
  datatype Query = Query(page: Option<Pos>, limit: Option<Pos>)

  datatype Body =
    | ListBody(contacts: seq<Contact>, totalPages: nat, currentPage: Pos)
    | Created(contact: Contact)
    | Message(text: string)

  datatype Response = Response(status: int, body: Body)

  const MissingFieldsMessage := "Name, phone and email all fields are required"
  const NotFoundMessage := "Contact not found"
  const DeletedMessage := "Contact Deleted"
  const GetFailedPrefix := "Failed to GET contacts: "
  const AddFailedPrefix := "Failed to ADD contact: "
  const DeleteFailedPrefix := "Failed to DELETE contact "
  /** Stands for the message of the schema's failed `required` validation. */
  const RequiredValidationFailed := "Contact validation failed"

  function Min(a: int, b: int): (m: int) { if a <= b then a else b }
  function Max(a: int, b: int): (m: int) { if a >= b then a else b }

  // ---------------------------------------------------------------------
  // Newest-first order
  // ---------------------------------------------------------------------

  /** Strictly decreasing creation stamps: the order `sort({ createdAt: -1 })` produces. */
  predicate NewestFirstOrdered(t: seq<Contact>) {
    forall i, j :: 0 <= i < j < |t| ==> t[i].createdAt > t[j].createdAt
  }

  /**
   * The collection, kept in insertion order, listed newest first: since
   * stamps increase with insertion, this is the insertion order reversed.
   */
  function NewestFirst(s: seq<Contact>): (r: seq<Contact>)
    ensures |r| == |s|
    ensures forall i :: 0 <= i < |s| ==> r[i] == s[|s| - 1 - i]
  {
    if s == [] then [] else [s[|s| - 1]] + NewestFirst(s[..|s| - 1])
  }

  lemma NewestFirstIsOrdered(s: seq<Contact>)
    requires StampsIncreasing(s)
    ensures NewestFirstOrdered(NewestFirst(s))
  {
  }

  lemma {:induction false} NewestFirstIsPermutation(s: seq<Contact>)
    ensures multiset(NewestFirst(s)) == multiset(s)
  {
    if s != [] {
      var init := s[..|s| - 1];
      NewestFirstIsPermutation(init);
      assert s == init + [s[|s| - 1]];
    }
  }

  /** Two arrangements of the same records, both newest first, are equal. */
  lemma {:induction false} OrderedArrangementUnique(a: seq<Contact>, b: seq<Contact>)
    requires multiset(a) == multiset(b)
    requires NewestFirstOrdered(a) && NewestFirstOrdered(b)
    ensures a == b
  {
    if a == [] {
      assert |b| == |multiset(b)| == 0;
    } else {
      assert |b| == |multiset(b)| == |multiset(a)| == |a|;
      HeadsAgree(a, b);
      DropHead(a);
      DropHead(b);
      OrderedArrangementUnique(a[1..], b[1..]);
    }
  }

  lemma HeadsAgree(a: seq<Contact>, b: seq<Contact>)
    requires a != [] && b != []
    requires multiset(a) == multiset(b)
    requires NewestFirstOrdered(a) && NewestFirstOrdered(b)
    ensures a[0] == b[0]
  {
    assert a[0] in multiset(b);
    var k :| 0 <= k < |b| && b[k] == a[0];
    assert b[0] in multiset(a);
    var m :| 0 <= m < |a| && a[m] == b[0];
    if k > 0 {
      assert b[0].createdAt > b[k].createdAt;
    }
  }

  lemma DropHead(a: seq<Contact>)
    requires a != []
    requires NewestFirstOrdered(a)
    ensures multiset(a[1..]) == multiset(a) - multiset{a[0]}
    ensures NewestFirstOrdered(a[1..])
  {
    assert a == [a[0]] + a[1..];
  }

  /**
   * Whatever arrangement the store's sort returns, it is the one listed
   * here: any newest-first permutation of the collection is `NewestFirst`.
   */
  lemma SortIsNewestFirst(s: seq<Contact>, t: seq<Contact>)
    requires StampsIncreasing(s)
    requires multiset(t) == multiset(s) && NewestFirstOrdered(t)
    ensures t == NewestFirst(s)
  {
    NewestFirstIsOrdered(s);
    NewestFirstIsPermutation(s);
    OrderedArrangementUnique(t, NewestFirst(s));
  }

  // ---------------------------------------------------------------------
  // Pagination
  // ---------------------------------------------------------------------

  /** `skip(offset).limit(limit)`: at most `limit` records from `offset` on. */
  function Window(s: seq<Contact>, offset: nat, limit: Pos): (r: seq<Contact>)
    ensures |r| == Min(limit, Max(0, |s| - offset))
    ensures forall i :: 0 <= i < |r| ==> r[i] == s[offset + i]
  {
    if offset >= |s| then [] else s[offset..Min(offset + limit, |s|)]
  }

  /** `Math.ceil(total / limit)`: the fewest pages of `limit` that hold `total` records. */
  function CeilDiv(total: nat, limit: Pos): (pages: nat)
    ensures total <= pages * limit
    ensures pages > 0 ==> (pages - 1) * limit < total
  {
    (total + limit - 1) / limit
  }

  /** The record offset of a page: `(page - 1) * limit`. */
  function Offset(page: Pos, limit: Pos): (offset: nat)
  {
    (page - 1) * limit
  }

  /**
   * GET /api/contacts: the requested window of the newest-first collection,
   * the page count of the whole collection, and the echoed page; a store
   * failure gives 500 with the failure's message.
   */
  function ListContacts(store: seq<Contact>, q: Query, fault: Option<string>): (r: Response)
    ensures fault.Some? ==> r == Response(500, Message(GetFailedPrefix + fault.value))
    ensures fault.None? ==>
      var page := q.page.GetOr(DefaultPage);
      var limit := q.limit.GetOr(DefaultLimit);
      var offset := Offset(page, limit);
      && r.status == 200
      && r.body.ListBody?
      && |r.body.contacts| == Min(limit, Max(0, |store| - offset))
      && (forall i :: 0 <= i < |r.body.contacts| ==> r.body.contacts[i] == NewestFirst(store)[offset + i])
      && (|store| <= offset ==> r.body.contacts == [])
      && r.body.totalPages == CeilDiv(|store|, limit)
      && r.body.currentPage == page
  {
    if fault.Some? then
      Response(500, Message(GetFailedPrefix + fault.value))
    else
      var page := q.page.GetOr(DefaultPage);
      var limit := q.limit.GetOr(DefaultLimit);
      var contacts := Window(NewestFirst(store), Offset(page, limit), limit);
      var total := |store|;
      Response(200, ListBody(contacts, CeilDiv(total, limit), page))
  }

  /** The page count depends only on the collection's size and the page size. */
  lemma TotalPagesIndependentOfPage(store: seq<Contact>, p1: Pos, p2: Pos, limit: Pos)
    ensures ListContacts(store, Query(Some(p1), Some(limit)), None).body.totalPages
         == ListContacts(store, Query(Some(p2), Some(limit)), None).body.totalPages
  {
  }

  /**
   * Every record appears on the page its newest-first position falls in,
   * at the matching place, and that page is within the page count.
   */
  lemma EveryContactOnItsPage(store: seq<Contact>, limit: Pos, k: nat)
    requires k < |store|
    ensures var page: Pos := k / limit + 1;
      && page <= CeilDiv(|store|, limit)
      && var r := ListContacts(store, Query(Some(page), Some(limit)), None);
      && k % limit < |r.body.contacts|
      && r.body.contacts[k % limit] == NewestFirst(store)[k]
  {
    var page: Pos := k / limit + 1;
    var offset := (page - 1) * limit;
    assert offset + k % limit == k;
    assert offset <= k;
  }

  /** The scenario: A, B, C created in that order, two per page. */
  lemma ThreeContactsTwoPerPage(a: Contact, b: Contact, c: Contact)
    requires StampsIncreasing([a, b, c])
    ensures var store := [a, b, c];
      && ListContacts(store, Query(Some(1), Some(2)), None) == Response(200, ListBody([c, b], 2, 1))
      && ListContacts(store, Query(Some(2), Some(2)), None) == Response(200, ListBody([a], 2, 2))
      && ListContacts(store, Query(Some(3), Some(2)), None) == Response(200, ListBody([], 2, 3))
  {
  }

  /** A request without `page` or `limit` lists the first five. */
  lemma DefaultQueryIsFirstFive(store: seq<Contact>)
    ensures ListContacts(store, Query(None, None), None)
         == ListContacts(store, Query(Some(1), Some(5)), None)
  {
  }

  /** A record newer than all others is the first entry of page 1. */
  lemma NewestIsFirstOnPageOne(store: seq<Contact>, c: Contact, limit: Pos)
    ensures var r := ListContacts(store + [c], Query(Some(1), Some(limit)), None);
      |r.body.contacts| > 0 && r.body.contacts[0] == c
  {
  }

  // ---------------------------------------------------------------------
  // The collection and the two handlers that change it
  // ---------------------------------------------------------------------

  /** A body field that `!field` rejects: absent, or the empty string. */
  predicate Missing(field: Option<string>) {
    field.None? || IsFalsyString(field.value)
  }

  /** The falsiness test on the three body fields lets the request through. */
  predicate AllPresent(name: Option<string>, phone: Option<string>, email: Option<string>) {
    !Missing(name) && !Missing(phone) && !Missing(email)
  }

  /** The schema's `required` rule holds of the trimmed fields. */
  predicate PassesSchema(name: Option<string>, phone: Option<string>, email: Option<string>)
    requires AllPresent(name, phone, email)
  {
    Trim(name.value) != "" && Trim(phone.value) != "" && Trim(email.value) != ""
  }

  /**
   * A whitespace-only field gets past the falsiness test but not the
   * schema, so such a request ends in the 500 branch rather than in 400.
   */
  lemma BlankFieldPassesFalsinessTest(name: string, phone: string, email: string)
    requires name != "" && AllSpace(name)
    requires Trim(phone) != "" && Trim(email) != ""
    ensures AllPresent(Some(name), Some(phone), Some(email))
    ensures !PassesSchema(Some(name), Some(phone), Some(email))
  {
  }

  /** The position of the record with identifier `id`, if any. */
  function IndexOf(s: seq<Contact>, id: Id): (r: Option<nat>)
    ensures r.None? <==> !HasId(s, id)
    ensures r.Some? ==> r.value < |s| && s[r.value].id == id
  {
    if s == [] then None
    else if s[0].id == id then Some(0)
    else
      match IndexOf(s[1..], id)
      case None => None
      case Some(k) => Some(k + 1)
  }

  /** The records of `s` whose identifier is not `id`, in their order. */
  function Without(s: seq<Contact>, id: Id): (r: seq<Contact>)
    ensures forall c :: c in r <==> c in s && c.id != id
    ensures |r| <= |s|
  {
    if s == [] then []
    else if s[0].id == id then Without(s[1..], id)
    else [s[0]] + Without(s[1..], id)
  }

  /**
   * With unique identifiers, removing the one record at position `k` keeps
   * exactly the records whose identifier differs from its own.
   */
  lemma {:induction false} RemoveAtIsWithout(s: seq<Contact>, k: nat)
    requires UniqueIds(s) && k < |s|
    ensures s[..k] + s[k + 1..] == Without(s, s[k].id)
    ensures |Without(s, s[k].id)| == |s| - 1
  {
    if k == 0 {
      WithoutAbsent(s[1..], s[0].id);
    } else {
      RemoveAtIsWithout(s[1..], k - 1);
      assert s[1..][k - 1].id == s[k].id;
      assert s[..k] + s[k + 1..] == [s[0]] + (s[1..][..k - 1] + s[1..][k..]);
    }
  }

  /** Removing an identifier that no record has leaves the records as they are. */
  lemma {:induction false} WithoutAbsent(s: seq<Contact>, id: Id)
    requires !HasId(s, id)
    ensures Without(s, id) == s
  {
    if s != [] {
      WithoutAbsent(s[1..], id);
      assert s == [s[0]] + s[1..];
    }
  }

  /** Removing records keeps the collection's invariant shape. */
  lemma RemoveAtKeepsOrder(s: seq<Contact>, k: nat)
    requires k < |s|
    requires StampsIncreasing(s) && UniqueIds(s)
    ensures StampsIncreasing(s[..k] + s[k + 1..]) && UniqueIds(s[..k] + s[k + 1..])
  {
    var t := s[..k] + s[k + 1..];
    forall i | 0 <= i < |t| ensures t[i] == s[if i < k then i else i + 1] {
    }
  }

  /** Appending a record with a new identifier and the newest stamp keeps the collection's shape. */
  lemma AppendNewest(s: seq<Contact>, c: Contact)
    requires StampsIncreasing(s) && UniqueIds(s)
    requires forall i :: 0 <= i < |s| ==> s[i].id < c.id && s[i].createdAt < c.createdAt
    ensures StampsIncreasing(s + [c]) && UniqueIds(s + [c]) && !HasId(s, c.id)
  {
  }

  class ContactStore {
    /** The collection in insertion order. */
    var contacts: seq<Contact>
    /** The next identifier to hand out. */
    var nextId: Id
    /** The logical clock behind the creation stamps. */
    var clock: nat

    ghost predicate Valid()
      reads this
    {
      && StampsIncreasing(contacts)
      && UniqueIds(contacts)
      && (forall i :: 0 <= i < |contacts| ==> contacts[i].id < nextId && contacts[i].createdAt < clock)
    }

    constructor ()
      ensures Valid() && contacts == []
    {
      contacts, nextId, clock := [], 0, 0;
    }

    /**
     * POST /api/contacts. A missing or empty field is refused with 400 before
     * any write. Otherwise the schema trims the three fields; a field that
     * trims to "" fails the schema's `required` rule, which surfaces as 500,
     * as does a store failure. Success appends one record with a fresh
     * identifier and the newest stamp and returns it with 201.
     */
    method Create(name: Option<string>, phone: Option<string>, email: Option<string>, fault: Option<string>)
      returns (r: Response)
      requires Valid()
      modifies this
      ensures Valid()
      ensures r.status == 400 <==> !AllPresent(name, phone, email)
      ensures r.status == 400 ==> r.body == Message(MissingFieldsMessage)
      ensures r.status == 201 <==> AllPresent(name, phone, email) && PassesSchema(name, phone, email) && fault.None?
      ensures r.status == 500 ==>
        r.body == Message(AddFailedPrefix + if PassesSchema(name, phone, email) then fault.value else RequiredValidationFailed)
      ensures r.status == 201 || r.status == 400 || r.status == 500
      ensures r.status != 201 ==> contacts == old(contacts)
      ensures r.status == 201 ==>
        && r.body.Created?
        && var c := r.body.contact;
        && c.name == Trim(name.value) && c.phone == Trim(phone.value) && c.email == Trim(email.value)
        && !HasId(old(contacts), c.id)
        && (forall i :: 0 <= i < |old(contacts)| ==> old(contacts)[i].createdAt < c.createdAt)
        && contacts == old(contacts) + [c]
    {
      if Missing(name) || Missing(phone) || Missing(email) {
        return Response(400, Message(MissingFieldsMessage));
      }
      var n, p, e := Trim(name.value), Trim(phone.value), Trim(email.value);
      if n == "" || p == "" || e == "" {
        return Response(500, Message(AddFailedPrefix + RequiredValidationFailed));
      }
      if fault.Some? {
        return Response(500, Message(AddFailedPrefix + fault.value));
      }
      var c := Contact(nextId, n, p, e, clock);
      AppendNewest(contacts, c);
      contacts := contacts + [c];
      nextId, clock := nextId + 1, clock + 1;
      r := Response(201, Created(c));
    }

    /**
     * DELETE /api/contacts/:id. A store failure gives 500 and an unknown
     * identifier 404, both without change; otherwise exactly the record
     * with that identifier is removed and the rest keep their order.
     */
    method Delete(id: Id, fault: Option<string>) returns (r: Response)
      requires Valid()
      modifies this
      ensures Valid()
      ensures fault.Some? ==> r == Response(500, Message(DeleteFailedPrefix + fault.value)) && contacts == old(contacts)
      ensures fault.None? && !HasId(old(contacts), id) ==>
        r == Response(404, Message(NotFoundMessage)) && contacts == old(contacts)
      ensures fault.None? && HasId(old(contacts), id) ==>
        && r == Response(200, Message(DeletedMessage))
        && contacts == Without(old(contacts), id)
        && |contacts| == |old(contacts)| - 1
      ensures nextId == old(nextId) && clock == old(clock)
    {
      if fault.Some? {
        return Response(500, Message(DeleteFailedPrefix + fault.value));
      }
      var found := IndexOf(contacts, id);
      if found.None? {
        return Response(404, Message(NotFoundMessage));
      }
      var k := found.value;
      RemoveAtIsWithout(contacts, k);
      RemoveAtKeepsOrder(contacts, k);
      contacts := contacts[..k] + contacts[k + 1..];
      r := Response(200, Message(DeletedMessage));
    }
  }
}
