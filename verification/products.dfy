/** The catalog manager: the six endpoints of the `/products` router as
    functions over the store, with their role and ownership checks.
 */
module Products {
  import opened Schema
  import opened Tables

  /** The `CreateProduct` request body, used by both create and update. */
  datatype ProductForm = ProductForm(
    name: string,
    description: string,
    price: int,
    imageUrl: string,
    stock: int,
    category: Id)

  /** What the public listings show: active and in stock. */
  predicate Visible(p: Product) { p.isActive && p.stock > 0 }

  /** Who may create a product: an admin or a supplier. */
  predicate MayCreate(user: User) { user.isAdmin || user.isSupplier }

  /** Who may edit or delete product `p`: an admin, or the supplier who owns it. */
  predicate MayEdit(user: User, p: Product)
  {
    user.isAdmin || (user.isSupplier && p.supplierId == Some(user.id))
  }

  /** `GET /products/`. */
  function AllProducts(s: Store): (r: seq<Product>)
    ensures forall x :: x in r <==> x in s.products && Visible(x)
  {
    Filter(s.products, Visible)
  }

  /** `create_product` appended exactly one active product built from `form`,
      under a fresh id, owned by `user`, with aggregate 0 and the slug of its
      name; nothing else changed. */
  predicate Created(before: Store, after: Store, user: User, form: ProductForm,
                    slugify: string -> string)
  {
    && after.categories == before.categories
    && after.ratings == before.ratings
    && after.reviews == before.reviews
    && |after.products| == |before.products| + 1
    && after.products[..|before.products|] == before.products
    && var p := after.products[|before.products|];
       && (forall q :: q in before.products ==> q.id != p.id)
       && p == Product(p.id, form.name, slugify(form.name), form.description, form.price,
                       form.imageUrl, form.stock, Some(form.category), Some(user.id), 0.0, true)
  }

  /** `POST /products/create`; `slugify` is the slug library, left uninterpreted. */
  function CreateProduct(s: Store, user: User, form: ProductForm, slugify: string -> string): (t: Reply)
    ensures !MayCreate(user) ==> t == Reply(s, Fail(Unauthorized))
    ensures MayCreate(user) ==> t.outcome == Pass && Created(s, t.store, user, form, slugify)
  {
    if !MayCreate(user) then Reply(s, Fail(Unauthorized))
    else
      var p := Product(NextId(s.products, ProductKey), form.name, slugify(form.name), form.description,
                       form.price, form.imageUrl, form.stock, Some(form.category), Some(user.id), 0.0, true);
      var products := s.products + [p];
      assert products[..|s.products|] == s.products;
      Reply(s.(products := products), Pass)
  }

  function CategoryBySlug(categories: seq<Category>, slug: string): (r: Option<Category>)
    ensures r.Some? ==> r.value in categories && r.value.slug == slug
    ensures r.None? <==> forall c :: c in categories ==> c.slug != slug
  {
    Find(categories, (c: Category) => c.slug == slug)
  }

  /** The ids of the direct subcategories of category `parent`. */
  function ChildIds(categories: seq<Category>, parent: Id): (r: seq<Id>)
    ensures forall k :: k in r <==> exists d :: d in categories && d.parentId == Some(parent) && d.id == k
  {
    if |categories| == 0 then []
    else
      var rest := ChildIds(categories[1..], parent);
      assert forall d :: d in categories <==> d == categories[0] || d in categories[1..];
      if categories[0].parentId == Some(parent) then [categories[0].id] + rest else rest
  }

  /** Product `p` is filed under category `c` or under one of its direct subcategories. */
  predicate InScope(categories: seq<Category>, c: Category, p: Product)
  {
    && p.categoryId.Some?
    && (|| p.categoryId.value == c.id
        || exists d :: d in categories && d.parentId == Some(c.id) && d.id == p.categoryId.value)
  }

  /** `GET /products/{category_slug}` as written. Once the category is found,
      the subcategory query calls `.all()` on the coroutine `db.scalars(...)`
      before awaiting it; the resulting `AttributeError` becomes a 500. */
  function ProductByCategoryAsWritten(s: Store, slug: string): (r: Result<seq<Product>>)
    ensures r.Failure?
    ensures r.error == NotFound <==> forall c :: c in s.categories ==> c.slug != slug
    ensures r.error == ServerError <==> exists c :: c in s.categories && c.slug == slug
  {
    match CategoryBySlug(s.categories, slug)
    case None => Failure(NotFound)
    case Some(_) => Failure(ServerError)
  }

  /** `GET /products/{category_slug}` as evidently intended, with the
      subcategory query awaited: one level of subcategories only. */
  function ProductByCategory(s: Store, slug: string): (r: Result<seq<Product>>)
    ensures r.Failure? <==> forall c :: c in s.categories ==> c.slug != slug
    ensures r.Failure? ==> r.error == NotFound
    ensures r.Success? ==> forall x :: x in r.value <==>
      x in s.products && Visible(x) && InScope(s.categories, CategoryBySlug(s.categories, slug).value, x)
  {
    match CategoryBySlug(s.categories, slug)
    case None => Failure(NotFound)
    case Some(c) =>
      var ids := [c.id] + ChildIds(s.categories, c.id);
      Success(Filter(s.products, (p: Product) =>
        p.categoryId.Some? && p.categoryId.value in ids && Visible(p)))
  }

  /** The condition of the detail query: active, in stock, and with the slug. */
  function DetailQuery(slug: string): Product -> bool
  {
    (p: Product) => Visible(p) && p.slug == slug
  }

  /** `GET /products/detail/{product_slug}`. */
  function ProductDetail(s: Store, slug: string): (r: Result<Product>)
    ensures r.Success? ==> r.value in s.products && Visible(r.value) && r.value.slug == slug
    ensures r.Failure? <==> forall x :: x in s.products ==> !(Visible(x) && x.slug == slug)
    ensures r.Failure? ==> r.error == NotFound
  {
    match Find(s.products, DetailQuery(slug))
    case None => Failure(NotFound)
    case Some(p) => Success(p)
  }

  /** The product a slug names for update and delete, active or not. */
  function ProductBySlug(products: seq<Product>, slug: string): (r: Option<Product>)
    ensures r.Some? ==> r.value in products && r.value.slug == slug
    ensures r.None? <==> forall p :: p in products ==> p.slug != slug
  {
    Find(products, (p: Product) => p.slug == slug)
  }

  /** Row `after` is row `before` with name, image, description, price, stock,
      category and slug taken from the form; id, aggregate rating, owner and
      active flag are kept. */
  predicate Revised(before: Product, after: Product, form: ProductForm, slugify: string -> string)
  {
    && after.id == before.id
    && after.rating == before.rating
    && after.supplierId == before.supplierId
    && after.isActive == before.isActive
    && after.name == form.name
    && after.imageUrl == form.imageUrl
    && after.description == form.description
    && after.price == form.price
    && after.stock == form.stock
    && after.categoryId == Some(form.category)
    && after.slug == slugify(form.name)
  }

  /** The `UPDATE products ... WHERE slug = slug` of `update_product`. */
  function ReviseWhere(products: seq<Product>, slug: string, form: ProductForm,
                       slugify: string -> string): (r: seq<Product>)
    ensures |r| == |products|
    ensures forall i :: 0 <= i < |products| ==>
      if products[i].slug == slug then Revised(products[i], r[i], form, slugify) else r[i] == products[i]
  {
    UpdateWhere(products, (p: Product) => p.slug == slug,
      (p: Product) => p.(name := form.name, imageUrl := form.imageUrl, description := form.description,
                         price := form.price, stock := form.stock, categoryId := Some(form.category),
                         slug := slugify(form.name)))
  }

  /** The `UPDATE products SET is_active = False WHERE slug = slug` of `delete_product`. */
  function DeactivateWhere(products: seq<Product>, slug: string): (r: seq<Product>)
    ensures |r| == |products|
    ensures forall i :: 0 <= i < |products| ==>
      r[i] == if products[i].slug == slug then products[i].(isActive := false) else products[i]
  {
    UpdateWhere(products, (p: Product) => p.slug == slug, (p: Product) => p.(isActive := false))
  }

  /** `PUT /products/detail/{product_slug}`: not-found first, then ownership. */
  function UpdateProduct(s: Store, user: User, slug: string, form: ProductForm,
                         slugify: string -> string): (t: Reply)
    ensures t.outcome == Fail(NotFound) <==> forall p :: p in s.products ==> p.slug != slug
    ensures t.outcome == Fail(Unauthorized) <==>
      ProductBySlug(s.products, slug).Some? && !MayEdit(user, ProductBySlug(s.products, slug).value)
    ensures t.outcome == Pass <==>
      ProductBySlug(s.products, slug).Some? && MayEdit(user, ProductBySlug(s.products, slug).value)
    ensures t.outcome.Fail? ==> t.store == s
    ensures t.outcome == Pass ==>
      && t.store.categories == s.categories && t.store.ratings == s.ratings && t.store.reviews == s.reviews
      && |t.store.products| == |s.products|
      && forall i :: 0 <= i < |s.products| ==>
           if s.products[i].slug == slug then Revised(s.products[i], t.store.products[i], form, slugify)
           else t.store.products[i] == s.products[i]
  {
    match ProductBySlug(s.products, slug)
    case None => Reply(s, Fail(NotFound))
    case Some(p) =>
      if !MayEdit(user, p) then Reply(s, Fail(Unauthorized))
      else Reply(s.(products := ReviseWhere(s.products, slug, form, slugify)), Pass)
  }

  /** `DELETE /products/delete`: not-found first, then ownership; a soft delete. */
  function DeleteProduct(s: Store, user: User, slug: string): (t: Reply)
    ensures t.outcome == Fail(NotFound) <==> forall p :: p in s.products ==> p.slug != slug
    ensures t.outcome == Fail(Unauthorized) <==>
      ProductBySlug(s.products, slug).Some? && !MayEdit(user, ProductBySlug(s.products, slug).value)
    ensures t.outcome == Pass <==>
      ProductBySlug(s.products, slug).Some? && MayEdit(user, ProductBySlug(s.products, slug).value)
    ensures t.outcome.Fail? ==> t.store == s
    ensures t.outcome == Pass ==>
      && t.store.categories == s.categories && t.store.ratings == s.ratings && t.store.reviews == s.reviews
      && |t.store.products| == |s.products|
      && forall i :: 0 <= i < |s.products| ==>
           t.store.products[i] == if s.products[i].slug == slug
                                  then s.products[i].(isActive := false) else s.products[i]
  {
    match ProductBySlug(s.products, slug)
    case None => Reply(s, Fail(NotFound))
    case Some(p) =>
      if !MayEdit(user, p) then Reply(s, Fail(Unauthorized))
      else Reply(s.(products := DeactivateWhere(s.products, slug)), Pass)
  }

  /** A created product receives the next serial id of the products table. */
  lemma CreatedUnderNextId(s: Store, user: User, form: ProductForm, slugify: string -> string)
    requires MayCreate(user)
    ensures |CreateProduct(s, user, form, slugify).store.products| == |s.products| + 1
    ensures CreateProduct(s, user, form, slugify).store.products[|s.products|].id == NextId(s.products, ProductKey)
  {
  }

  /** Listing by category reaches the direct subcategories of the category
      but not their own subcategories. */
  lemma CategoryListingOneLevel(s: Store, slug: string, d: Category, g: Category, x: Product)
    requires UniqueKeys(s.categories, CategoryKey)
    requires CategoryBySlug(s.categories, slug).Some?
    requires d in s.categories && d.parentId == Some(CategoryBySlug(s.categories, slug).value.id)
    requires g in s.categories && g.parentId == Some(d.id)
    requires d.id != CategoryBySlug(s.categories, slug).value.id
    requires g.id != CategoryBySlug(s.categories, slug).value.id
    requires x in s.products && Visible(x)
    ensures x.categoryId == Some(d.id) ==> x in ProductByCategory(s, slug).value
    ensures x.categoryId == Some(g.id) ==> x !in ProductByCategory(s, slug).value
  {
    var c := CategoryBySlug(s.categories, slug).value;
    if x.categoryId == Some(g.id) {
      forall e | e in s.categories && e.id == g.id
        ensures e.parentId != Some(c.id)
      {
        var i :| 0 <= i < |s.categories| && s.categories[i] == e;
        var j :| 0 <= j < |s.categories| && s.categories[j] == g;
        assert CategoryKey(s.categories[i]) == CategoryKey(s.categories[j]);
      }
      assert !InScope(s.categories, c, x);
    }
  }

  /** Once soft-deleted, a product disappears from every public read. */
  lemma DeletedProductHidden(s: Store, user: User, slug: string, categorySlug: string)
    requires DeleteProduct(s, user, slug).outcome == Pass
    ensures var after := DeleteProduct(s, user, slug).store;
      && (forall x :: x in AllProducts(after) ==> x.slug != slug)
      && ProductDetail(after, slug) == Failure(NotFound)
      && (ProductByCategory(after, categorySlug).Success? ==>
            forall x :: x in ProductByCategory(after, categorySlug).value ==> x.slug != slug)
  {
    var after := DeleteProduct(s, user, slug).store;
    forall x | x in after.products && x.slug == slug
      ensures !x.isActive
    {
      var i :| 0 <= i < |after.products| && after.products[i] == x;
    }
  }

  /** Deactivating the rows with a slug twice deactivates them once. */
  lemma DeactivateWhereIdempotent(products: seq<Product>, slug: string)
    ensures DeactivateWhere(DeactivateWhere(products, slug), slug) == DeactivateWhere(products, slug)
  {
    var once := DeactivateWhere(products, slug);
    var twice := DeactivateWhere(once, slug);
    assert forall i :: 0 <= i < |once| ==> twice[i] == once[i];
  }

  /** With unique slugs, the row a slug names after deactivation is the
      deactivated row, so it keeps its owner. */
  lemma DeactivateWhereKeepsOwner(products: seq<Product>, slug: string)
    requires UniqueKeys(products, ProductSlug)
    requires ProductBySlug(products, slug).Some?
    ensures ProductBySlug(DeactivateWhere(products, slug), slug).Some?
    ensures ProductBySlug(DeactivateWhere(products, slug), slug).value.supplierId
         == ProductBySlug(products, slug).value.supplierId
  {
    var after := DeactivateWhere(products, slug);
    var p := ProductBySlug(products, slug).value;
    var k :| 0 <= k < |products| && products[k] == p;
    assert after[k] == p.(isActive := false);
    assert after[k] in after && after[k].slug == slug;
    var q := ProductBySlug(after, slug).value;
    var j :| 0 <= j < |after| && after[j] == q;
    assert products[j].slug == slug;
    assert ProductSlug(products[j]) == ProductSlug(products[k]);
    KeyNamesOneRow(products, ProductSlug, j, k);
  }

  /** Deleting the same product twice changes nothing the second time. */
  lemma DeleteProductIdempotent(s: Store, user: User, slug: string)
    requires UniqueKeys(s.products, ProductSlug)
    requires DeleteProduct(s, user, slug).outcome == Pass
    ensures var t := DeleteProduct(s, user, slug);
      DeleteProduct(t.store, user, slug) == t
  {
    var t := DeleteProduct(s, user, slug);
    var once := DeactivateWhere(s.products, slug);
    assert t == Reply(s.(products := once), Pass);
    DeactivateWhereKeepsOwner(s.products, slug);
    DeactivateWhereIdempotent(s.products, slug);
    assert DeleteProduct(t.store, user, slug) == Reply(t.store.(products := DeactivateWhere(once, slug)), Pass);
  }

  /** The listing as written fails with a 500 exactly where the intended
      listing succeeds, and agrees with it (NotFound) everywhere else. */
  lemma CategoryListingAsWrittenFails(s: Store, slug: string)
    ensures ProductByCategoryAsWritten(s, slug)
         == if ProductByCategory(s, slug).Success? then Failure(ServerError) else ProductByCategory(s, slug)
  {
  }

  /** A store where the intended listing shows a product and the listing as
      written raises instead. */
  lemma CategoryListingCounterexample()
    ensures var s := Store(
        [Product(1, "Desk lamp", "desk-lamp", "", 30, "", 5, Some(10), Some(3), 0.0, true)],
        [Category(10, "lamps", None)],
        [], []);
      && ProductByCategory(s, "lamps") == Success(s.products)
      && ProductByCategoryAsWritten(s, "lamps") == Failure(ServerError)
  {
    var s := Store(
        [Product(1, "Desk lamp", "desk-lamp", "", 30, "", 5, Some(10), Some(3), 0.0, true)],
        [Category(10, "lamps", None)],
        [], []);
    var c := s.categories[0];
    assert c in s.categories;
    assert CategoryBySlug(s.categories, "lamps") == Some(c);
    assert InScope(s.categories, c, s.products[0]);
    var r := ProductByCategory(s, "lamps").value;
    assert s.products[0] in r;
    assert |r| == 1 && r[0] == s.products[0];
    assert r == s.products;
  }

  /** A product a supplier or admin creates in stock is listed, and the detail
      lookup by the slug of its name returns it exactly when no older visible
      product already holds that slug. */
  lemma CreatedProductListed(s: Store, user: User, form: ProductForm, slugify: string -> string)
    requires MayCreate(user) && form.stock > 0
    ensures var after := CreateProduct(s, user, form, slugify).store;
      && after.products[|s.products|] in AllProducts(after)
      && ProductDetail(after, slugify(form.name)).Success?
      && (ProductDetail(after, slugify(form.name)) == Success(after.products[|s.products|])
          <==> forall p :: p in s.products ==> !(Visible(p) && p.slug == slugify(form.name)))
  {
    var after := CreateProduct(s, user, form, slugify).store;
    var c := after.products[|s.products|];
    assert c in after.products;
    assert after.products == s.products + [c];
    FindAppend(s.products, c, DetailQuery(slugify(form.name)));
  }

  /** With unique slugs and the new slug held by no row outside the update,
      the row the new slug names afterwards is the revised row. */
  lemma ReviseWhereNamesRevisedRow(products: seq<Product>, slug: string, form: ProductForm,
                                   slugify: string -> string)
    requires UniqueKeys(products, ProductSlug)
    requires ProductBySlug(products, slug).Some?
    requires forall p :: p in products && p.slug != slug ==> p.slug != slugify(form.name)
    ensures var after := ReviseWhere(products, slug, form, slugify);
      && ProductBySlug(after, slugify(form.name)).Some?
      && ProductBySlug(after, slugify(form.name)).value.id == ProductBySlug(products, slug).value.id
      && Revised(ProductBySlug(products, slug).value, ProductBySlug(after, slugify(form.name)).value, form, slugify)
  {
    var after := ReviseWhere(products, slug, form, slugify);
    var p := ProductBySlug(products, slug).value;
    var k :| 0 <= k < |products| && products[k] == p;
    assert after[k] in after;
    var q := ProductBySlug(after, slugify(form.name)).value;
    var j :| 0 <= j < |after| && after[j] == q;
    assert products[j] in products;
    assert products[j].slug == slug;
    KeyNamesOneRow(products, ProductSlug, j, k);
  }

  /** After an authorized update the product answers to the slug of its new
      name; with unique slugs and the new slug held by no other product, the
      row found is the updated product. */
  lemma UpdatedProductUnderNewSlug(s: Store, user: User, slug: string, form: ProductForm,
                                   slugify: string -> string)
    requires UpdateProduct(s, user, slug, form, slugify).outcome == Pass
    ensures var after := UpdateProduct(s, user, slug, form, slugify).store;
      && ProductBySlug(after.products, slugify(form.name)).Some?
      && (WellFormed(s) && (forall p :: p in s.products && p.slug != slug ==> p.slug != slugify(form.name)) ==>
            && ProductBySlug(after.products, slugify(form.name)).value.id == ProductBySlug(s.products, slug).value.id
            && Revised(ProductBySlug(s.products, slug).value, ProductBySlug(after.products, slugify(form.name)).value,
                       form, slugify))
  {
    var t := UpdateProduct(s, user, slug, form, slugify);
    var after := ReviseWhere(s.products, slug, form, slugify);
    assert t == Reply(s.(products := after), Pass);
    var p := ProductBySlug(s.products, slug).value;
    var k :| 0 <= k < |s.products| && s.products[k] == p;
    assert after[k] in after;
    if WellFormed(s) && (forall p :: p in s.products && p.slug != slug ==> p.slug != slugify(form.name)) {
      ReviseWhereNamesRevisedRow(s.products, slug, form, slugify);
    }
  }
}
