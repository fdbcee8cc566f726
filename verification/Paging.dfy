/** The in-memory resource service: a store keyed by id, and listing it in pages
    that resume strictly after the last id of the page before. */
module Paging {
  import opened Common
  import opened Order

  datatype Status = Unspecified | Active | Other(code: int)

  datatype Resource = Resource(id: string, name: string, owner: string, status: Status, createdAt: nat)

  type Store = map<string, Resource>

  const DEFAULT_PAGE_SIZE := 50

  /** Ids are never empty and every resource is stored under its own id. */
  ghost predicate StoreOk(store: Store) {
    forall id | id in store :: id != "" && store[id].id == id
  }

  predicate Matches(r: Resource, owner: string) {
    owner == "" || r.owner == owner
  }

  function Matching(store: Store, owner: string): set<string> {
    set id | id in store && Matches(store[id], owner)
  }

  /** The matching ids strictly after the token; an empty token means from the start. */
  function Remaining(store: Store, owner: string, token: string): set<string> {
    set id | id in Matching(store, owner) && (token == "" || Less(token, id))
  }

  function EffectiveSize(size: int): (n: nat)
    ensures n > 0
  {
    if size <= 0 then DEFAULT_PAGE_SIZE else size
  }

  datatype Page = Page(ids: seq<string>, next: string)

  function CutPage(ids: seq<string>, n: nat): Page
    requires n > 0
  {
    if n < |ids| then Page(ids[..n], ids[n - 1]) else Page(ids, "")
  }

  /** The first size remaining ids in order, and the last of them when more remain. */
  ghost function PageOf(store: Store, owner: string, token: string, size: int): Page {
    CutPage(Sorted(Remaining(store, owner, token)), EffectiveSize(size))
  }

  datatype Failure = InvalidArgument | NotFound

  datatype Result<T> = Ok(value: T) | Err(error: Failure)

  function HexDigit(n: int): char
    requires 0 <= n < 16
  {
    "0123456789abcdef"[n]
  }

  /** The id made of 16 random bytes: 32 hexadecimal digits. */
  function HexId(entropy: seq<int>): (id: string)
    requires forall i | 0 <= i < |entropy| :: 0 <= entropy[i] < 256
    ensures |id| == 2 * |entropy|
  {
    if entropy == [] then "" else
    [HexDigit(entropy[0] / 16), HexDigit(entropy[0] % 16)] + HexId(entropy[1..])
  }

  lemma HexDigitUnique(a: int, b: int)
    requires 0 <= a < 16 && 0 <= b < 16 && HexDigit(a) == HexDigit(b)
    ensures a == b
  {
    var digits := "0123456789abcdef";
    assert forall i | 0 <= i < 10 :: digits[i] == (48 + i) as char;
    assert forall i | 10 <= i < 16 :: digits[i] == (87 + i) as char;
  }

  lemma HexByteUnique(a: int, b: int)
    requires 0 <= a < 256 && 0 <= b < 256
    requires HexDigit(a / 16) == HexDigit(b / 16) && HexDigit(a % 16) == HexDigit(b % 16)
    ensures a == b
  {
    HexDigitUnique(a / 16, b / 16);
    HexDigitUnique(a % 16, b % 16);
  }

  /** Different random bytes make different ids. */
  lemma {:induction false} HexIdUnique(a: seq<int>, b: seq<int>)
    requires forall i | 0 <= i < |a| :: 0 <= a[i] < 256
    requires forall i | 0 <= i < |b| :: 0 <= b[i] < 256
    requires HexId(a) == HexId(b)
    ensures a == b
  {
    assert |a| == |b|;
    if a != [] {
      assert HexId(a)[0] == HexDigit(a[0] / 16) && HexId(a)[1] == HexDigit(a[0] % 16) && HexId(a)[2..] == HexId(a[1..]);
      assert HexId(b)[0] == HexDigit(b[0] / 16) && HexId(b)[1] == HexDigit(b[0] % 16) && HexId(b)[2..] == HexId(b[1..]);
      HexByteUnique(a[0], b[0]);
      HexIdUnique(a[1..], b[1..]);
      assert a == [a[0]] + a[1..] && b == [b[0]] + b[1..];
    }
  }

  function Ids(rs: seq<Resource>): (ids: seq<string>)
    ensures |ids| == |rs|
    ensures forall i | 0 <= i < |rs| :: ids[i] == rs[i].id
  {
    seq(|rs|, i requires 0 <= i < |rs| => rs[i].id)
  }

  lemma CutIsSlice(ids: seq<string>, start: nat, n: nat)
    requires start <= |ids| && n > 0
    ensures
      var end := if start + n < |ids| then start + n else |ids|;
      var p := CutPage(ids[start..], n);
      && ids[start..end] == p.ids
      && p.next == if end < |ids| && start < end then ids[end - 1] else ""
  {
    if start + n < |ids| {
      assert ids[start..][..n] == ids[start..start + n];
    } else {
      assert ids[start..|ids|] == ids[start..];
    }
  }

  /** The page that starts at a position, and the token for the next one. */
  method Cut(all: seq<Resource>, start: nat, size: int) returns (page: seq<Resource>, next: string)
    requires start <= |all|
    ensures Page(Ids(page), next) == CutPage(Ids(all)[start..], EffectiveSize(size))
    ensures forall i | 0 <= i < |page| :: page[i] in all
  {
    var n := if size <= 0 then DEFAULT_PAGE_SIZE else size;
    var end := if start + n < |all| then start + n else |all|;
    page := all[start..end];
    next := "";
    if end < |all| && |page| > 0 {
      next := page[|page| - 1].id;
    }
    assert Ids(page) == Ids(all)[start..end];
    CutIsSlice(Ids(all), start, n);
  }

  ghost predicate IsSeek(all: seq<Resource>, token: string, start: nat) {
    && start <= |all|
    && (token == "" ==> start == 0)
    && (token != "" ==> forall k | 0 <= k < start :: !Less(token, all[k].id))
    && (token != "" && start < |all| ==> Less(token, all[start].id))
  }

  /** Position of the first resource after the token, or the length when there is none. */
  method Seek(all: seq<Resource>, token: string) returns (start: nat)
    ensures IsSeek(all, token, start)
  {
    start := 0;
    if token != "" {
      start := |all|;
      var i := 0;
      while i < |all|
        invariant 0 <= i <= |all| && start == |all|
        invariant forall k | 0 <= k < i :: !Less(token, all[k].id)
      {
        if Less(token, all[i].id) {
          start := i;
          break;
        }
        i := i + 1;
      }
    }
  }

  /** Holds exactly the matching resources of the store, each once. */
  ghost predicate Collected(store: Store, owner: string, keys: set<string>, rs: seq<Resource>) {
    && (forall i, j | 0 <= i < j < |rs| :: rs[i].id != rs[j].id)
    && (forall i | 0 <= i < |rs| :: rs[i].id in keys && rs[i].id in Matching(store, owner) && rs[i] == store[rs[i].id])
    && (forall id | id in keys && id in Matching(store, owner) :: id in Ids(rs))
  }

  method Collect(store: Store, owner: string) returns (all: seq<Resource>)
    requires StoreOk(store)
    ensures Collected(store, owner, store.Keys, all)
  {
    all := [];
    var todo := store.Keys;
    while todo != {}
      invariant todo <= store.Keys
      invariant Collected(store, owner, store.Keys - todo, all)
      decreases |todo|
    {
      var id :| id in todo;
      var r := store[id];
      if Matches(r, owner) {
        assert Ids(all + [r]) == Ids(all) + [id];
        all := all + [r];
      }
      todo := todo - {id};
    }
    assert store.Keys - todo == store.Keys;
  }

  method Insert(rs: seq<Resource>, r: Resource) returns (out: seq<Resource>)
    requires Increasing(Ids(rs)) && forall i | 0 <= i < |rs| :: rs[i].id != r.id
    ensures Increasing(Ids(out))
    ensures |out| == |rs| + 1 && forall x :: x in out <==> x in rs || x == r
  {
    var i := 0;
    while i < |rs| && Less(rs[i].id, r.id)
      invariant 0 <= i <= |rs|
      invariant forall k | 0 <= k < i :: Less(rs[k].id, r.id)
    {
      i := i + 1;
    }
    out := rs[..i] + [r] + rs[i..];
    InsertIncreasing(Ids(rs), r.id, i);
    assert Ids(out) == Ids(rs)[..i] + [r.id] + Ids(rs)[i..];
    assert rs == rs[..i] + rs[i..];
  }

  /** The library sort, by id. */
  method SortById(rs: seq<Resource>) returns (out: seq<Resource>)
    requires forall i, j | 0 <= i < j < |rs| :: rs[i].id != rs[j].id
    ensures Increasing(Ids(out))
    ensures |out| == |rs| && forall r :: r in out <==> r in rs
  {
    out := [];
    var k := 0;
    while k < |rs|
      invariant 0 <= k <= |rs| && |out| == k
      invariant Increasing(Ids(out))
      invariant forall r :: r in out <==> r in rs[..k]
    {
      var r := rs[k];
      assert forall i | 0 <= i < |out| :: out[i] in rs[..k] && out[i].id != r.id;
      out := Insert(out, r);
      assert rs[..k + 1] == rs[..k] + [r];
      k := k + 1;
    }
    assert rs[..k] == rs;
  }

  lemma SameIds(a: seq<Resource>, b: seq<Resource>)
    requires forall r :: r in a <==> r in b
    ensures forall id :: id in Ids(a) <==> id in Ids(b)
  {
    forall id | id in Ids(a)
      ensures id in Ids(b)
    {
      var i :| 0 <= i < |a| && Ids(a)[i] == id;
      assert a[i] in b;
      var j :| 0 <= j < |b| && b[j] == a[i];
      assert Ids(b)[j] == id;
    }
    forall id | id in Ids(b)
      ensures id in Ids(a)
    {
      var i :| 0 <= i < |b| && Ids(b)[i] == id;
      assert b[i] in a;
      var j :| 0 <= j < |a| && a[j] == b[i];
      assert Ids(a)[j] == id;
    }
  }

  lemma FromStore(store: Store, owner: string, unsorted: seq<Resource>, all: seq<Resource>)
    requires Collected(store, owner, store.Keys, unsorted)
    requires forall r :: r in all <==> r in unsorted
    ensures forall i | 0 <= i < |all| :: all[i].id in store && all[i] == store[all[i].id]
    ensures forall id :: id in Ids(all) <==> id in Matching(store, owner)
  {
    forall i | 0 <= i < |all|
      ensures all[i].id in store && all[i] == store[all[i].id]
    {
      assert all[i] in all;
    }
    SameIds(unsorted, all);
  }

  /** Seeking the first id after the token leaves the remaining ids, in order. */
  lemma SeekIsRemaining(store: Store, owner: string, token: string, all: seq<Resource>, start: nat)
    requires Increasing(Ids(all)) && IsSeek(all, token, start)
    requires forall id :: id in Ids(all) <==> id in Matching(store, owner)
    ensures Ids(all)[start..] == Sorted(Remaining(store, owner, token))
  {
    var ids := Ids(all);
    var rest := Remaining(store, owner, token);
    forall id
      ensures id in ids[start..] <==> id in rest
    {
      if id in ids[start..] {
        var k :| start <= k < |ids| && ids[k] == id;
        assert id in ids;
        if token != "" && start < k {
          Transitive(token, ids[start], ids[k]);
        }
      }
      if id in rest {
        var k :| 0 <= k < |ids| && ids[k] == id;
        assert start <= k;
        assert ids[start..][k - start] == id;
      }
    }
    SortedIs(ids[start..], rest);
  }

  lemma PageFromSeek(store: Store, owner: string, token: string, size: int, all: seq<Resource>, start: nat)
    requires Increasing(Ids(all)) && IsSeek(all, token, start)
    requires forall id :: id in Ids(all) <==> id in Matching(store, owner)
    ensures PageOf(store, owner, token, size) == CutPage(Ids(all)[start..], EffectiveSize(size))
  {
    SeekIsRemaining(store, owner, token, all, start);
  }

  /** A page holds matching ids after the token, as many as fit, and says if there are more. */
  lemma PageHolds(store: Store, owner: string, token: string, size: int)
    requires StoreOk(store)
    ensures
      var page := PageOf(store, owner, token, size);
      var n, left := if size <= 0 then 50 else size, |Remaining(store, owner, token)|;
      && |page.ids| == (if left < n then left else n) && (page.next == "" <==> left <= n)
      && forall id | id in page.ids :: id in store && (owner == "" || store[id].owner == owner) && (token == "" || Less(token, id))
  {
    var all := Sorted(Remaining(store, owner, token));
    var page := PageOf(store, owner, token, size);
    forall id | id in page.ids
      ensures id in Remaining(store, owner, token)
    {
      assert id in all;
    }
    if page.next != "" {
      assert page.ids[|page.ids| - 1] == page.next;
    }
    assert forall id | id in all :: id != "";
  }

  class ResourceService {
    var store: Store

    constructor ()
      ensures store == map[]
    {
      store := map[];
    }

    method CreateResource(req: Option<Resource>, entropy: seq<int>, now: nat) returns (r: Result<Resource>)
      requires StoreOk(store)
      requires |entropy| == 16 && forall i | 0 <= i < 16 :: 0 <= entropy[i] < 256
      modifies this
      ensures StoreOk(store)
      ensures req.None? ==> r == Err(InvalidArgument) && store == old(store)
      ensures req.Some? ==>
        && r.Ok? && r.value.id == HexId(entropy) && store == old(store)[HexId(entropy) := r.value]
        && r.value.name == req.value.name && r.value.owner == req.value.owner && r.value.createdAt == now
        && r.value.status == if req.value.status == Unspecified then Active else req.value.status
    {
      if req.None? {
        return Err(InvalidArgument);
      }
      var id := HexId(entropy);
      var out := Resource(id, req.value.name, req.value.owner, req.value.status, now);
      if out.status == Unspecified {
        out := out.(status := Active);
      }
      store := store[id := out];
      return Ok(out);
    }

    method UpdateResource(id: string, name: Option<string>, owner: Option<string>, status: Option<Status>)
      returns (r: Result<Resource>)
      requires StoreOk(store)
      modifies this
      ensures StoreOk(store)
      ensures r.Err? ==> store == old(store)
      ensures r == Err(InvalidArgument) <==> id == ""
      ensures r == Err(NotFound) <==> id != "" && id !in old(store)
      ensures r.Ok? ==>
        && store == old(store)[id := r.value]
        && r.value.name == (if name.Some? then name.value else old(store)[id].name)
        && r.value.owner == (if owner.Some? then owner.value else old(store)[id].owner)
        && r.value.status == (if status.Some? then status.value else old(store)[id].status)
        && r.value.createdAt == old(store)[id].createdAt
    {
      if id == "" {
        return Err(InvalidArgument);
      }
      if id !in store {
        return Err(NotFound);
      }
      var existing := store[id];
      if name.Some? {
        existing := existing.(name := name.value);
      }
      if owner.Some? {
        existing := existing.(owner := owner.value);
      }
      if status.Some? {
        existing := existing.(status := status.value);
      }
      store := store[id := existing];
      return Ok(existing);
    }

    method DeleteResource(id: string) returns (r: Result<()>)
      requires StoreOk(store)
      modifies this
      ensures StoreOk(store)
      ensures r == if id in old(store) then Ok(()) else Err(NotFound)
      ensures store == old(store) - {id}
    {
      if id !in store {
        assert store - {id} == store;
        return Err(NotFound);
      }
      store := store - {id};
      return Ok(());
    }

    /** One page: filter in any order, sort by id, seek past the token, cut. */
    method ListResources(owner: string, token: string, size: int) returns (page: seq<Resource>, next: string)
      requires StoreOk(store)
      ensures Page(Ids(page), next) == PageOf(store, owner, token, size)
      ensures forall i | 0 <= i < |page| :: page[i].id in store && page[i] == store[page[i].id]
      ensures forall i | 0 <= i < |page| :: (owner == "" || page[i].owner == owner) && (token == "" || Less(token, page[i].id))
      ensures
        var n, left := if size <= 0 then 50 else size, |Remaining(store, owner, token)|;
        |page| == (if left < n then left else n) && (next == "" <==> left <= n)
    {
      var unsorted := Collect(store, owner);
      var all := SortById(unsorted);
      var start := Seek(all, token);
      page, next := Cut(all, start, size);
      FromStore(store, owner, unsorted, all);
      PageFromSeek(store, owner, token, size, all, start);
      PageHolds(store, owner, token, size);
      assert forall i | 0 <= i < |page| :: Ids(page)[i] in Ids(page);
    }
  }

  // ---------------------------------------------------------------------------
  // Walking the pages of a store that changes
  // ---------------------------------------------------------------------------

  /** The token a page was fetched with. */
  ghost function TokenAt(pages: seq<Page>, i: nat): string
    requires i < |pages|
  {
    if i == 0 then "" else pages[i - 1].next
  }

  /** Page i is taken from stores[i], with its own page size, at the token that the
      page before it gave. */
  ghost predicate WalkStep(owner: string, stores: seq<Store>, sizes: seq<int>, pages: seq<Page>, i: nat)
    requires i < |pages| == |stores| == |sizes|
  {
    && StoreOk(stores[i])
    && pages[i] == PageOf(stores[i], owner, TokenAt(pages, i), sizes[i])
    && (i > 0 ==> TokenAt(pages, i) != "")
  }

  /** A walk over pages; each store is whatever creates, updates and deletes have
      made of it by the time its page is fetched. */
  ghost predicate IsWalk(owner: string, stores: seq<Store>, sizes: seq<int>, pages: seq<Page>) {
    && 0 < |pages| == |stores| == |sizes|
    && (forall i | 0 <= i < |pages| :: WalkStep(owner, stores, sizes, pages, i))
  }

  ghost function AllIds(pages: seq<Page>): seq<string> {
    if pages == [] then [] else AllIds(pages[..|pages| - 1]) + pages[|pages| - 1].ids
  }

  lemma WalkPrefix(owner: string, stores: seq<Store>, sizes: seq<int>, pages: seq<Page>, n: nat)
    requires IsWalk(owner, stores, sizes, pages) && 0 < n <= |pages|
    ensures IsWalk(owner, stores[..n], sizes[..n], pages[..n])
  {
    forall i | 0 <= i < n
      ensures WalkStep(owner, stores[..n], sizes[..n], pages[..n], i)
    {
      assert WalkStep(owner, stores, sizes, pages, i);
      assert TokenAt(pages[..n], i) == TokenAt(pages, i);
    }
  }

  ghost predicate After(ids: seq<string>, token: string) {
    forall x | x in ids :: token == "" || Less(token, x)
  }

  lemma CutPageOrder(ids: seq<string>, n: nat, token: string)
    requires 0 < n && Increasing(ids) && After(ids, token)
    ensures
      var page := CutPage(ids, n);
      && Increasing(page.ids) && After(page.ids, token)
      && (page.next != "" ==> page.ids != [] && page.ids[|page.ids| - 1] == page.next)
  {
  }

  /** Pages are in order, come after their token, and end with the token they give. */
  lemma PageOrder(owner: string, stores: seq<Store>, sizes: seq<int>, pages: seq<Page>, i: nat)
    requires IsWalk(owner, stores, sizes, pages) && i < |pages|
    ensures Increasing(pages[i].ids) && After(pages[i].ids, TokenAt(pages, i))
    ensures i > 0 ==> TokenAt(pages, i) != ""
    ensures pages[i].next != "" ==> pages[i].ids != [] && pages[i].ids[|pages[i].ids| - 1] == pages[i].next
  {
    assert WalkStep(owner, stores, sizes, pages, i);
    var all := Sorted(Remaining(stores[i], owner, TokenAt(pages, i)));
    CutPageOrder(all, EffectiveSize(sizes[i]), TokenAt(pages, i));
  }

  lemma PageMatches(owner: string, stores: seq<Store>, sizes: seq<int>, pages: seq<Page>, i: nat, id: string)
    requires IsWalk(owner, stores, sizes, pages) && i < |pages| && id in pages[i].ids
    ensures id in Matching(stores[i], owner)
  {
    assert WalkStep(owner, stores, sizes, pages, i);
    assert id in Sorted(Remaining(stores[i], owner, TokenAt(pages, i)));
  }

  /** A remaining id that is not on the page comes after the token the page gives. */
  lemma PageCovers(owner: string, stores: seq<Store>, sizes: seq<int>, pages: seq<Page>, i: nat, id: string)
    requires IsWalk(owner, stores, sizes, pages) && i < |pages|
    requires id in Remaining(stores[i], owner, TokenAt(pages, i))
    ensures id in pages[i].ids || (pages[i].next != "" && Less(pages[i].next, id))
  {
    assert WalkStep(owner, stores, sizes, pages, i);
    var all := Sorted(Remaining(stores[i], owner, TokenAt(pages, i)));
    var n := EffectiveSize(sizes[i]);
    assert id in all;
    var k :| 0 <= k < |all| && all[k] == id;
    if n <= k {
      assert all[n - 1] in all;
    } else {
      assert pages[i].ids[k] == id;
    }
  }

  lemma AppendIncreasing(a: seq<string>, b: seq<string>, m: string)
    requires Increasing(a) && Increasing(b)
    requires forall x | x in a :: x == m || Less(x, m)
    requires forall x | x in b :: Less(m, x)
    ensures Increasing(a + b)
  {
    var s := a + b;
    forall i, j | 0 <= i < j < |s|
      ensures Less(s[i], s[j])
    {
      if i < |a| <= j {
        assert a[i] in a && b[j - |a|] in b;
        if a[i] != m {
          Transitive(a[i], m, b[j - |a|]);
        }
      }
    }
  }

  ghost predicate UpTo(ids: seq<string>, m: string) {
    forall x | x in ids :: x == m || Less(x, m)
  }

  lemma IncreasingUpToLast(ids: seq<string>)
    requires Increasing(ids) && ids != []
    ensures UpTo(ids, ids[|ids| - 1])
  {
  }

  lemma UpToTransitive(ids: seq<string>, m: string, n: string)
    requires UpTo(ids, m) && Less(m, n)
    ensures UpTo(ids, n)
  {
    forall x | x in ids
      ensures Less(x, n)
    {
      if x != m {
        Transitive(x, m, n);
      }
    }
  }

  /** Everything returned so far comes no later than the token given last. */
  lemma {:induction false} WalkOrdered(owner: string, stores: seq<Store>, sizes: seq<int>, pages: seq<Page>)
    requires IsWalk(owner, stores, sizes, pages)
    ensures Increasing(AllIds(pages))
    ensures pages[|pages| - 1].next != "" ==> UpTo(AllIds(pages), pages[|pages| - 1].next)
  {
    var n := |pages| - 1;
    var last := pages[n];
    PageOrder(owner, stores, sizes, pages, n);
    if last.next != "" {
      IncreasingUpToLast(last.ids);
    }
    if n == 0 {
      assert AllIds(pages) == last.ids;
    } else {
      WalkPrefix(owner, stores, sizes, pages, n);
      WalkOrdered(owner, stores[..n], sizes[..n], pages[..n]);
      var before, m := AllIds(pages[..n]), pages[..n][n - 1].next;
      AppendIncreasing(before, last.ids, m);
      if last.next != "" {
        assert last.next in last.ids;
        UpToTransitive(before, m, last.next);
      }
    }
  }

  lemma {:induction false} PageInAll(pages: seq<Page>, i: nat, id: string)
    requires i < |pages| && id in pages[i].ids
    ensures id in AllIds(pages)
  {
    if i < |pages| - 1 {
      PageInAll(pages[..|pages| - 1], i, id);
    }
  }

  lemma {:induction false} WalkCovers(owner: string, stores: seq<Store>, sizes: seq<int>, pages: seq<Page>, id: string, i: nat)
    requires IsWalk(owner, stores, sizes, pages) && i < |pages|
    requires forall k | 0 <= k < |stores| :: id in Matching(stores[k], owner)
    requires i == 0 || Less(TokenAt(pages, i), id)
    requires pages[|pages| - 1].next == ""
    ensures id in AllIds(pages)
    decreases |pages| - i
  {
    assert id in Matching(stores[i], owner);
    PageCovers(owner, stores, sizes, pages, i, id);
    if id in pages[i].ids {
      PageInAll(pages, i, id);
    } else {
      WalkCovers(owner, stores, sizes, pages, id, i + 1);
    }
  }

  /** Whatever happens to the store between pages, a finished walk returns strictly
      increasing ids, so none twice, and every id that matches at each fetch. */
  lemma {:induction false} WalkIsComplete(owner: string, stores: seq<Store>, sizes: seq<int>, pages: seq<Page>)
    requires IsWalk(owner, stores, sizes, pages) && pages[|pages| - 1].next == ""
    ensures Increasing(AllIds(pages))
    ensures
      forall id | forall k | 0 <= k < |stores| :: id in stores[k] && (owner == "" || stores[k][id].owner == owner) ::
        id in AllIds(pages)
  {
    WalkOrdered(owner, stores, sizes, pages);
    forall id | forall k | 0 <= k < |stores| :: id in stores[k] && (owner == "" || stores[k][id].owner == owner)
      ensures id in AllIds(pages)
    {
      assert forall k | 0 <= k < |stores| :: id in Matching(stores[k], owner);
      WalkCovers(owner, stores, sizes, pages, id, 0);
    }
  }

  /** Every id returned matched the filter when its page was fetched. */
  lemma {:induction false} WalkIsSound(owner: string, stores: seq<Store>, sizes: seq<int>, pages: seq<Page>, id: string)
    returns (i: nat)
    requires IsWalk(owner, stores, sizes, pages) && id in AllIds(pages)
    ensures i < |pages| == |stores| && id in pages[i].ids
    ensures id in stores[i] && (owner == "" || stores[i][id].owner == owner)
  {
    var n := |pages| - 1;
    assert AllIds(pages) == AllIds(pages[..n]) + pages[n].ids;
    if id in pages[n].ids {
      i := n;
      PageMatches(owner, stores, sizes, pages, n, id);
    } else {
      assert id in AllIds(pages[..n]) && n > 0;
      WalkPrefix(owner, stores, sizes, pages, n);
      i := WalkIsSound(owner, stores[..n], sizes[..n], pages[..n], id);
    }
  }

  lemma {:induction false} WalkMakesProgress(owner: string, stores: seq<Store>, sizes: seq<int>, pages: seq<Page>)
    requires IsWalk(owner, stores, sizes, pages)
    ensures |pages| <= |AllIds(pages)| + 1
    ensures pages[|pages| - 1].next != "" ==> |pages| <= |AllIds(pages)|
  {
    var n := |pages| - 1;
    PageOrder(owner, stores, sizes, pages, n);
    if n > 0 {
      WalkPrefix(owner, stores, sizes, pages, n);
      WalkMakesProgress(owner, stores[..n], sizes[..n], pages[..n]);
      assert pages[..n][n - 1] == pages[n - 1];
    }
  }

  lemma {:induction false} IncreasingCard(s: seq<string>, ids: set<string>)
    requires Increasing(s) && forall x | x in s :: x in ids
    ensures |s| <= |ids|
  {
    if s != [] {
      IncreasingTail(s);
      assert s[0] in s;
      IncreasingCard(s[1..], ids - {s[0]});
    }
  }

  /** On a store that does not change, a walk ends after at most one page per
      matching resource, and then has listed exactly the matching ids in order. */
  lemma {:induction false} WalkOfFixedStore(owner: string, store: Store, stores: seq<Store>, sizes: seq<int>, pages: seq<Page>)
    requires IsWalk(owner, stores, sizes, pages)
    requires forall k | 0 <= k < |stores| :: stores[k] == store
    ensures
      var matching := set id | id in store && (owner == "" || store[id].owner == owner);
      && |pages| <= |matching| + 1
      && (pages[|pages| - 1].next == "" ==> AllIds(pages) == Sorted(matching))
  {
    assert Matching(store, owner) == set id | id in store && (owner == "" || store[id].owner == owner);
    WalkOrdered(owner, stores, sizes, pages);
    WalkMakesProgress(owner, stores, sizes, pages);
    forall x | x in AllIds(pages)
      ensures x in Matching(store, owner)
    {
      var i := WalkIsSound(owner, stores, sizes, pages, x);
    }
    IncreasingCard(AllIds(pages), Matching(store, owner));
    if pages[|pages| - 1].next == "" {
      WalkIsComplete(owner, stores, sizes, pages);
      SortedIs(AllIds(pages), Matching(store, owner));
    }
  }
}
