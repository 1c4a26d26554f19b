/**
 * The browser-side store of saved newsletters: one JSON array under a fixed
 * key of the page's local storage, read, upserted and filtered by id.
 */
module Storage {
  import opened Wrappers
  import opened Strings
  import opened Newsletter

  /** The key the list is stored under. */
  const StorageKey := "ai-newsletters"

  /** The message of the error `saveNewsletter` throws without local storage. */
  const UnavailableMessage := "localStorage is not available."

  /** A saved newsletter: the form data plus its id and two ISO timestamps. */
  datatype SavedNewsletter = SavedNewsletter(data: NewsletterData, id: string, createdAt: string, updatedAt: string)

  /**
   * A stored string, as `JSON.parse` sees it: empty, not JSON, JSON but not
   * an array, or an array of saved newsletters.
   */
  datatype Blob = EmptyText | Unparsable | NonArray | ArrayOf(records: seq<SavedNewsletter>)

  /** `findIndex` by id: the first position holding `id`. */
  function IndexOfId(list: seq<SavedNewsletter>, id: string): (r: Option<nat>)
    ensures r.Some? ==> r.value < |list| && list[r.value].id == id
    ensures r.Some? ==> forall j :: 0 <= j < r.value ==> list[j].id != id
    ensures r.None? ==> forall j :: 0 <= j < |list| ==> list[j].id != id
  {
    if |list| == 0 then None
    else if list[0].id == id then Some(0)
    else
      match IndexOfId(list[1..], id)
      case Some(i) => Some(i + 1)
      case None => None
  }

  /** `find` by id: the first record holding `id`. */
  function FindById(list: seq<SavedNewsletter>, id: string): (r: Option<SavedNewsletter>)
    ensures r.Some? ==> r.value in list && r.value.id == id
    ensures r.None? <==> forall n :: n in list ==> n.id != id
    ensures forall k :: 0 <= k < |list| && list[k].id == id && (forall j :: 0 <= j < k ==> list[j].id != id) ==>
              r == Some(list[k])
  {
    match IndexOfId(list, id)
    case Some(i) => Some(list[i])
    case None => None
  }

  /** `filter((n) => n.id !== id)`. */
  function RemoveId(list: seq<SavedNewsletter>, id: string): (r: seq<SavedNewsletter>)
    ensures forall n :: n in r ==> n in list && n.id != id
    ensures forall n :: n in list && n.id != id ==> n in r
    ensures |r| <= |list|
  {
    if |list| == 0 then []
    else (if list[0].id == id then [] else [list[0]]) + RemoveId(list[1..], id)
  }

  /**
   * The list `saveNewsletter` writes back and the record it returns: a truthy
   * `id` found in the list updates that entry in place, keeping its id and
   * creation time; anything else puts a new record with `freshId` in front.
   */
  function Upsert(list: seq<SavedNewsletter>, data: NewsletterData, id: Option<string>, freshId: string, now: string)
    : (r: (seq<SavedNewsletter>, SavedNewsletter))
    ensures Truthy(id) && IndexOfId(list, id.value).Some? ==>
            var k := IndexOfId(list, id.value).value;
            && |r.0| == |list|
            && r.0[k] == r.1
            && r.1 == SavedNewsletter(data, list[k].id, list[k].createdAt, now)
            && forall j :: 0 <= j < |list| && j != k ==> r.0[j] == list[j]
    ensures !(Truthy(id) && IndexOfId(list, id.value).Some?) ==>
            r.1 == SavedNewsletter(data, freshId, now, now) && r.0 == [r.1] + list
  {
    if Truthy(id) && IndexOfId(list, id.value).Some? then
      var k := IndexOfId(list, id.value).value;
      var updated := SavedNewsletter(data, list[k].id, list[k].createdAt, now);
      (list[k := updated], updated)
    else
      var created := SavedNewsletter(data, freshId, now, now);
      ([created] + list, created)
  }

  /** No two entries share an id. */
  predicate UniqueIds(list: seq<SavedNewsletter>) {
    forall i, j :: 0 <= i < j < |list| ==> list[i].id != list[j].id
  }

  /** The page's local storage, or its absence (server-side rendering). */
  class LocalStore {
    var available: bool
    var items: map<string, Blob>

    constructor(available: bool, items: map<string, Blob>)
      ensures this.available == available && this.items == items
    {
      this.available := available;
      this.items := items;
    }

    /** `getNewsletters`: the stored array, or `[]` when storage, the item or a JSON array is missing. */
    function Newsletters(): (r: seq<SavedNewsletter>)
      reads this
      ensures r != [] ==> available && StorageKey in items && items[StorageKey] == ArrayOf(r)
      ensures available && StorageKey in items && items[StorageKey].ArrayOf? ==> r == items[StorageKey].records
    {
      if !available || StorageKey !in items then []
      else
        match items[StorageKey]
        case ArrayOf(records) => records
        case _ => []
    }

    /** `getNewsletterById`: the first stored record holding `id`. */
    function NewsletterById(id: string): (r: Option<SavedNewsletter>)
      reads this
      ensures r.Some? ==> r.value in Newsletters() && r.value.id == id
      ensures r.None? <==> forall n :: n in Newsletters() ==> n.id != id
      ensures var list := Newsletters();
              forall k :: 0 <= k < |list| && list[k].id == id && (forall j :: 0 <= j < k ==> list[j].id != id) ==>
                r == Some(list[k])
    {
      FindById(Newsletters(), id)
    }

    /**
     * `saveNewsletter`. `freshId` is what `crypto.randomUUID()` returns and
     * `now` the ISO time; storage is left as it was when it is unavailable.
     */
    method SaveNewsletter(data: NewsletterData, id: Option<string>, freshId: string, now: string)
      returns (r: Result<SavedNewsletter, string>)
      modifies this
      ensures !old(available) ==> r == Failure(UnavailableMessage) && unchanged(this)
      ensures old(available) ==>
              var (list, saved) := Upsert(old(Newsletters()), data, id, freshId, now);
              && r == Success(saved)
              && available
              && items == old(items)[StorageKey := ArrayOf(list)]
    {
      if !available {
        return Failure(UnavailableMessage);
      }
      var (list, saved) := Upsert(Newsletters(), data, id, freshId, now);
      items := items[StorageKey := ArrayOf(list)];
      r := Success(saved);
    }

    /** `deleteNewsletter`: rewrites the list without `id`, even when nothing matched. */
    method DeleteNewsletter(id: string)
      modifies this
      ensures !old(available) ==> unchanged(this)
      ensures old(available) ==> available && items == old(items)[StorageKey := ArrayOf(RemoveId(old(Newsletters()), id))]
    {
      if !available {
        return;
      }
      items := items[StorageKey := ArrayOf(RemoveId(Newsletters(), id))];
    }
  }

  /** A saved record is what a lookup of its id then finds, whether it was updated or created. */
  lemma {:induction false} SaveThenFind(list: seq<SavedNewsletter>, data: NewsletterData, id: Option<string>, freshId: string, now: string)
    ensures var (saved, r) := Upsert(list, data, id, freshId, now);
            FindById(saved, r.id) == Some(r)
  {
    var (saved, r) := Upsert(list, data, id, freshId, now);
    if Truthy(id) && IndexOfId(list, id.value).Some? {
      var k := IndexOfId(list, id.value).value;
      assert forall j :: 0 <= j < k ==> saved[j].id != r.id;
      assert IndexOfId(saved, r.id) == Some(k);
    } else {
      assert IndexOfId(saved, r.id) == Some(0);
    }
  }

  /** Saving never loses an entry: an update keeps the length, a creation adds one. */
  lemma {:induction false} SaveLength(list: seq<SavedNewsletter>, data: NewsletterData, id: Option<string>, freshId: string, now: string)
    ensures |Upsert(list, data, id, freshId, now).0| == |list| || |Upsert(list, data, id, freshId, now).0| == |list| + 1
    ensures |Upsert(list, data, id, freshId, now).0| == |list| <==> Truthy(id) && FindById(list, id.value).Some?
  {
  }

  /** Ids stay unique across a save, given that a new id differs from every stored one. */
  lemma {:induction false} SaveKeepsIdsUnique(list: seq<SavedNewsletter>, data: NewsletterData, id: Option<string>, freshId: string, now: string)
    requires UniqueIds(list)
    requires forall n :: n in list ==> n.id != freshId
    ensures UniqueIds(Upsert(list, data, id, freshId, now).0)
  {
    var saved := Upsert(list, data, id, freshId, now).0;
    if !(Truthy(id) && IndexOfId(list, id.value).Some?) {
      forall i, j | 0 <= i < j < |saved|
        ensures saved[i].id != saved[j].id
      {
        if i == 0 {
          assert saved[j] == list[j - 1];
          assert list[j - 1] in list;
        } else {
          assert saved[i] == list[i - 1] && saved[j] == list[j - 1];
        }
      }
    }
  }

  /** After a delete no entry holds the id. */
  lemma {:induction false} DeleteThenFind(list: seq<SavedNewsletter>, id: string)
    ensures FindById(RemoveId(list, id), id) == None
  {
  }

  /** Deleting filters in order: it acts on each part of a list separately. */
  lemma {:induction false} DeleteKeepsOrder(a: seq<SavedNewsletter>, b: seq<SavedNewsletter>, id: string)
    ensures RemoveId(a + b, id) == RemoveId(a, id) + RemoveId(b, id)
  {
    if |a| > 0 {
      var head := if a[0].id == id then [] else [a[0]];
      assert (a + b)[0] == a[0];
      assert (a + b)[1..] == a[1..] + b;
      assert RemoveId(a + b, id) == head + RemoveId(a[1..] + b, id);
      assert RemoveId(a, id) == head + RemoveId(a[1..], id);
      DeleteKeepsOrder(a[1..], b, id);
    } else {
      assert a + b == b;
    }
  }

  /** Deleting an id nobody holds rewrites the same list. */
  lemma {:induction false} DeleteAbsent(list: seq<SavedNewsletter>, id: string)
    requires forall n :: n in list ==> n.id != id
    ensures RemoveId(list, id) == list
  {
    if |list| > 0 {
      assert forall n :: n in list[1..] ==> n in list;
      DeleteAbsent(list[1..], id);
      assert list == [list[0]] + list[1..];
    }
  }

  /** Deleting twice is deleting once. */
  lemma {:induction false} DeleteIdempotent(list: seq<SavedNewsletter>, id: string)
    ensures RemoveId(RemoveId(list, id), id) == RemoveId(list, id)
  {
    DeleteAbsent(RemoveId(list, id), id);
  }

  /** Creating a record and then deleting its fresh id restores the list. */
  lemma {:induction false} CreateThenDelete(list: seq<SavedNewsletter>, data: NewsletterData, id: Option<string>, freshId: string, now: string)
    requires !(Truthy(id) && FindById(list, id.value).Some?)
    requires forall n :: n in list ==> n.id != freshId
    ensures RemoveId(Upsert(list, data, id, freshId, now).0, freshId) == list
  {
    var saved := Upsert(list, data, id, freshId, now).0;
    assert saved[1..] == list;
    DeleteAbsent(list, freshId);
  }
}
