/**
  The maintenance script that moves product images under a directory named
  after the product: `/uploads/<file>` becomes `/uploads/<product id>/<file>`.
 */
module ImageUrls {
  import opened Wrappers
  import opened Strings
  import opened Models

  const Uploads := "/uploads/"

  /** The rewrite of one URL of product `id`. */
  function FixUrl(id: Id, url: string): (r: string)
    ensures Includes(url, id) ==> r == url
    ensures !StartsWith(url, Uploads) ==> r == url
    ensures StartsWith(url, Uploads) && !Includes(url, id) ==> r == Uploads + id + "/" + LastSegment(url)
    ensures StartsWith(url, Uploads) || Includes(url, id) ==> Includes(r, id) && StartsWith(r, Uploads) == StartsWith(url, Uploads)
  {
    if Includes(url, id) then url
    else if StartsWith(url, Uploads) && !Includes(url, id) then
      var r := Uploads + id + "/" + LastSegment(url);
      UnderProductDirectory(id, LastSegment(url));
      r
    else url
  }

  /** A path under the product's own directory starts with /uploads/ and mentions the id. */
  lemma UnderProductDirectory(id: Id, file: string)
    ensures StartsWith(Uploads + id + "/" + file, Uploads)
    ensures Includes(Uploads + id + "/" + file, id)
  {
    var r := Uploads + id + "/" + file;
    assert r[..|Uploads|] == Uploads;
    assert r[|Uploads|..|Uploads| + |id|] == id;
    IncludesAt(r, id, |Uploads|);
  }

  /** Rewriting a URL a second time changes nothing. */
  lemma FixUrlIdempotent(id: Id, url: string)
    ensures FixUrl(id, FixUrl(id, url)) == FixUrl(id, url)
  {
  }

  /** `imageUrls.map(...)`: the same number of URLs, in the same order, each rewritten. */
  function FixUrls(id: Id, urls: seq<string>): (r: seq<string>)
    ensures |r| == |urls| && forall i | 0 <= i < |urls| :: r[i] == FixUrl(id, urls[i])
  {
    seq(|urls|, i requires 0 <= i < |urls| => FixUrl(id, urls[i]))
  }

  lemma FixUrlsIdempotent(id: Id, urls: seq<string>)
    ensures FixUrls(id, FixUrls(id, urls)) == FixUrls(id, urls)
  {
    var once := FixUrls(id, urls);
    forall i | 0 <= i < |urls|
      ensures FixUrls(id, once)[i] == once[i]
    {
      FixUrlIdempotent(id, urls[i]);
    }
  }

  /** The list the script writes for a product, or None when it writes nothing:
      the product has no URL array, or the rewrite leaves its list as it was. */
  function PlannedUpdate(id: Id, p: Product): (r: Option<seq<string>>)
    ensures r.Some? <==> p.imageUrls.Some? && FixUrls(id, p.imageUrls.value) != p.imageUrls.value
    ensures r.Some? ==> r.value == FixUrls(id, p.imageUrls.value)
    ensures r.Some? ==> forall u | u in r.value && StartsWith(u, Uploads) :: Includes(u, id)
  {
    match p.imageUrls
    case None => None
    case Some(urls) =>
      var fixed := FixUrls(id, urls);
      if fixed != urls then Some(fixed) else None
  }

  /** The product as the script leaves it. */
  function Fixed(id: Id, p: Product): Product
  {
    match PlannedUpdate(id, p)
    case None => p
    case Some(urls) => p.(imageUrls := Some(urls))
  }

  /** A product the script has passed over needs no further write. */
  lemma FixedIsStable(id: Id, p: Product)
    ensures PlannedUpdate(id, Fixed(id, p)) == None
  {
    if p.imageUrls.Some? {
      FixUrlsIdempotent(id, p.imageUrls.value);
    }
  }

  /** The products after the script has passed over those in `done`. */
  ghost function Pass(p0: map<Id, Product>, done: set<Id>): map<Id, Product>
  {
    map id | id in p0 :: if id in done then Fixed(id, p0[id]) else p0[id]
  }

  /** Passing over one more product fixes that product alone. */
  lemma PassStep(p0: map<Id, Product>, done: set<Id>, id: Id)
    requires id in p0
    ensures Pass(p0, done + {id}) == Pass(p0, done)[id := Fixed(id, p0[id])]
  {
    assert Pass(p0, done + {id}).Keys == Pass(p0, done)[id := Fixed(id, p0[id])].Keys;
  }

  /** The products in `done` that the script writes. */
  ghost function Planned(p0: map<Id, Product>, done: set<Id>): set<Id>
  {
    set id | id in done && id in p0 && PlannedUpdate(id, p0[id]).Some?
  }

  /** Passing over one more product adds it to the written ones exactly when it needs a write. */
  lemma PlannedStep(p0: map<Id, Product>, done: set<Id>, id: Id)
    requires id in p0
    ensures Planned(p0, done + {id}) ==
      if PlannedUpdate(id, p0[id]).Some? then Planned(p0, done) + {id} else Planned(p0, done)
  {
  }

  /** One turn of the script: rewrite one product's URLs and write them back
      only when they changed; says whether it wrote. */
  method FixProduct(s: Store, id: Id) returns (wrote: bool)
    requires id in s.products
    modifies s
    ensures s.products == old(s.products)[id := Fixed(id, old(s.products)[id])]
    ensures wrote <==> PlannedUpdate(id, old(s.products)[id]).Some?
    ensures s.inventory == old(s.inventory) && s.orders == old(s.orders)
  {
    var doc := s.products[id];
    var plan := PlannedUpdate(id, doc);
    wrote := plan.Some?;
    if wrote {
      s.products := s.products[id := doc.(imageUrls := plan)];
    }
  }

  /** The script: for each product, rewrite its URLs and write the list back only
      when it changed; returns the products it wrote. */
  method FixImageUrls(s: Store) returns (updated: set<Id>)
    modifies s
    ensures s.products.Keys == old(s.products).Keys
    ensures forall id | id in s.products :: s.products[id] == Fixed(id, old(s.products)[id])
    ensures forall id :: id in updated <==> id in old(s.products) && PlannedUpdate(id, old(s.products)[id]).Some?
    ensures forall id | id in s.products :: PlannedUpdate(id, s.products[id]) == None
    ensures s.inventory == old(s.inventory) && s.orders == old(s.orders)
  {
    var ids := s.FindProducts();
    ghost var p0, inv0, orders0 := s.products, s.inventory, s.orders;
    ghost var visited: set<Id> := {};
    updated := {};
    var i := 0;
    while i < |ids|
      invariant 0 <= i <= |ids|
      invariant visited <= p0.Keys && s.products.Keys == p0.Keys
      invariant forall k | 0 <= k < i :: ids[k] in visited
      invariant forall k | i <= k < |ids| :: ids[k] !in visited
      invariant s.products == Pass(p0, visited)
      invariant updated == Planned(p0, visited)
      invariant s.inventory == inv0 && s.orders == orders0
    {
      var id := ids[i];
      PassStep(p0, visited, id);
      PlannedStep(p0, visited, id);
      visited := visited + {id};
      var wrote := FixProduct(s, id);
      if wrote {
        updated := updated + {id};
      }
      i := i + 1;
    }
    assert visited == s.products.Keys;
    forall id | id in s.products
      ensures PlannedUpdate(id, s.products[id]) == None
    {
      FixedIsStable(id, old(s.products)[id]);
    }
  }
}
