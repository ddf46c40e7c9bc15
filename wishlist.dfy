/**
 * `api/endpoints/wishlist.py`: the request-side checks (`validar_url_wishlist`,
 * `tratar_erros_scraper`) and the reconciler `processar_dados_raspados_no_db`
 * over an in-memory catalog with the constraints of the models.
 */
module Wishlist {
  import opened Wrappers
  import opened Text
  import opened Price
  import opened Dom
  import opened Timestamp
  import opened Models
  import ScraperCore

  /** An `HTTPException`: its status code and detail. */
  datatype HttpError = HttpError(status: nat, detail: string)

  const BadUrlDetail: string := "A URL fornecida não parece ser de uma lista de desejos válida da Amazon."

  /**
   * `validar_url_wishlist`: a 400 exactly when the URL lacks `amazon.com` or
   * `/hz/wishlist/ls/` as a substring.
   */
  function ValidateUrl(url: string): (r: Option<HttpError>)
    ensures r.None? <==> (exists i :: OccursAt(url, "amazon.com", i)) && (exists i :: OccursAt(url, "/hz/wishlist/ls/", i))
    ensures r.Some? ==> r.value == HttpError(400, BadUrlDetail)
  {
    if !Contains(url, "amazon.com") || !Contains(url, "/hz/wishlist/ls/") then Some(HttpError(400, BadUrlDetail))
    else None
  }

  /** Any URL with `amazon.com` followed later by `/hz/wishlist/ls/` passes. */
  lemma WishlistShapeAccepted(host: string, rest: string, id: string)
    ensures ValidateUrl(host + "amazon.com" + rest + "/hz/wishlist/ls/" + id) == None
  {
    var url := host + "amazon.com" + rest + "/hz/wishlist/ls/" + id;
    assert url == host + "amazon.com" + (rest + "/hz/wishlist/ls/" + id);
    OccursBetween(host, "amazon.com", rest + "/hz/wishlist/ls/" + id);
    OccursBetween(host + "amazon.com" + rest, "/hz/wishlist/ls/", id);
  }

  /** A wishlist URL of the Brazilian store passes: `amazon.com.br` contains `amazon.com`. */
  lemma BrazilianStoreAccepted(id: string)
    ensures ValidateUrl("https://www." + "amazon.com" + ".br" + "/hz/wishlist/ls/" + id) == None
  {
    WishlistShapeAccepted("https://www.", ".br", id);
  }

  /**
   * `tratar_erros_scraper`: only an outcome with a truthy `"error_code"` raises:
   * 404 for a missing list, 400 for an empty or private one, 500 for any other
   * code, each with the outcome's `"error"` as detail.
   */
  function ScraperErrors(d: ScraperCore.ScrapeOutcome): (r: Option<HttpError>)
    ensures r.None? <==> !d.Rejected? || d.errorCode == ""
    ensures r.Some? ==> r.value.detail == d.error
    ensures r.Some? ==> (r.value.status == 404 <==> d.errorCode == ScraperCore.NotFoundCode)
    ensures r.Some? ==> (r.value.status == 400 <==> d.errorCode == ScraperCore.EmptyOrPrivateCode)
    ensures r.Some? ==> r.value.status in {400, 404, 500}
  {
    ScraperCore.CodesDiffer();
    match d
    case Rejected(error, code) =>
      if code == "" then None
      else if code == ScraperCore.NotFoundCode then Some(HttpError(404, error))
      else if code == ScraperCore.EmptyOrPrivateCode then Some(HttpError(400, error))
      else Some(HttpError(500, error))
    case _ => None
  }

  /**
   * Put together with the scraper's classification: a missing list answers
   * 404, an empty or private one 400, and both the listing and the generic
   * scraping error pass through.
   */
  lemma ClassifiedStatus(page: Page, extracted: Result<seq<Item>, Fault>)
    requires extracted.Failure? ==> extracted.error.ValueError?
    ensures var d := ScraperCore.Classify(page, extracted);
      && (ScraperErrors(d) == Some(HttpError(404, ScraperCore.NotFoundMessage)) <==> ScraperCore.SaysNotFound(page))
      && (ScraperErrors(d) == Some(HttpError(400, ScraperCore.EmptyOrPrivateMessage)) <==> d.Rejected? && !ScraperCore.SaysNotFound(page))
      && (ScraperErrors(d).None? <==> d.Listing? || d.Crashed?)
  {
    ScraperCore.CodesDiffer();
    var d := ScraperCore.Classify(page, extracted);
    assert |ScraperCore.NotFoundCode| > 0 && |ScraperCore.EmptyOrPrivateCode| > 0;
    assert d.Rejected? ==>
      || d == ScraperCore.Rejected(ScraperCore.NotFoundMessage, ScraperCore.NotFoundCode)
      || d == ScraperCore.Rejected(ScraperCore.EmptyOrPrivateMessage, ScraperCore.EmptyOrPrivateCode);
  }

  /** `dados_raspados.get("itens", [])`. */
  function ItemsToProcess(d: ScraperCore.ScrapeOutcome): (r: seq<Item>)
    ensures r == [] <==> !d.Listing? || d.items == []
    ensures r != [] ==> r == d.items
  {
    if d.Listing? then d.items else []
  }

  /** Why the reconciler's transaction aborts: a constraint at flush, or `strptime` raising. */
  datatype DbError = Integrity(violation: Violation) | BadTimestamp(text: string)

  /**
   * The tables as the open session sees them, pending rows included, with the
   * next ids and the `itens_processados` counter.
   */
  datatype Session = Session(produtos: seq<Produto>, historico: seq<HistoricoPreco>,
                             nextProdutoId: nat, nextHistoricoId: nat, processed: nat)

  predicate SessionValid(s: Session) {
    CatalogValid(s.produtos, s.historico, s.nextProdutoId, s.nextHistoricoId)
  }

  /** The `Produto` built for an item not found in the lookup map. */
  function NewProduct(id: nat, item: Item): Produto {
    Produto(id, item.asin, item.nome, item.link, item.imagem)
  }

  /**
   * One iteration of the loop. `existing` is the lookup map, built once from the
   * products stored before the call: a product created earlier in the same
   * batch is not in it.
   */
  function Step(existing: seq<Produto>, s: Session, item: Item): (r: Result<Session, DbError>)
    ensures r.Failure? && r.error.Integrity? ==>
      FindByAsin(existing, item.asin).None? && CheckInsert(s.produtos, NewProduct(s.nextProdutoId, item)) == Some(r.error.violation)
    ensures r.Failure? && r.error.BadTimestamp? ==>
      item.preco.Some? && Parse(item.dataExtracao).None? && r.error.text == item.dataExtracao
    ensures r.Success? ==> r.value.processed == s.processed + (if item.preco.Some? then 1 else 0)
  {
    var found := FindByAsin(existing, item.asin);
    var novo := NewProduct(s.nextProdutoId, item);
    var check := if found.Some? then None else CheckInsert(s.produtos, novo);
    if check.Some? then Failure(Integrity(check.value))
    else
      var s1 := Attached(existing, s, item);
      var pid := AttachedId(existing, s, item);
      if item.preco.None? then Success(s1)
      else
        match Parse(item.dataExtracao)
        case None => Failure(BadTimestamp(item.dataExtracao))
        case Some(when) =>
          var row := HistoricoPreco(s1.nextHistoricoId, item.preco, when, pid);
          Success(s1.(historico := s1.historico + [row], nextHistoricoId := s1.nextHistoricoId + 1,
                      processed := s1.processed + 1))
  }

  /** The session once the item's product is found in the lookup map or added. */
  function Attached(existing: seq<Produto>, s: Session, item: Item): Session {
    if FindByAsin(existing, item.asin).Some? then s
    else s.(produtos := s.produtos + [NewProduct(s.nextProdutoId, item)], nextProdutoId := s.nextProdutoId + 1)
  }

  /** The id of the item's product: the one found, or the one just added. */
  function AttachedId(existing: seq<Produto>, s: Session, item: Item): nat {
    match FindByAsin(existing, item.asin)
    case Some(p) => p.id
    case None => s.nextProdutoId
  }

  /** The loop over the items, in input order, up to the first exception. */
  function Run(existing: seq<Produto>, s: Session, items: seq<Item>): (r: Result<Session, DbError>)
    ensures r.Success? ==> r.value.processed == s.processed + CountPriced(items)
  {
    if items == [] then Success(s)
    else
      match Run(existing, s, items[..|items| - 1])
      case Failure(e) => Failure(e)
      case Success(s') => Step(existing, s', items[|items| - 1])
  }

  function CountPriced(items: seq<Item>): nat {
    if items == [] then 0
    else CountPriced(items[..|items| - 1]) + (if items[|items| - 1].preco.Some? then 1 else 0)
  }

  /** The items that get a history row: those with a price, in order. */
  function Priced(items: seq<Item>): (r: seq<Item>)
    ensures |r| == CountPriced(items)
  {
    if items == [] then []
    else
      var last := items[|items| - 1];
      Priced(items[..|items| - 1]) + (if last.preco.Some? then [last] else [])
  }

  /**
   * `Priced` is the order-keeping filter: it distributes over concatenation,
   * and keeps a single item exactly when it has a price.
   */
  lemma {:induction false} PricedAppend(a: seq<Item>, b: seq<Item>)
    ensures Priced(a + b) == Priced(a) + Priced(b)
    decreases |b|
  {
    if b == [] {
      assert a + b == a;
    } else {
      var b', last := b[..|b| - 1], b[|b| - 1];
      assert (a + b)[..|a + b| - 1] == a + b';
      PricedAppend(a, b');
    }
  }

  lemma PricedOne(item: Item)
    ensures Priced([item]) == (if item.preco.Some? then [item] else [])
  {
    assert [item][..0] == [];
  }

  /** The items whose product is not in the lookup map, so that one is created. */
  function CountNew(existing: seq<Produto>, items: seq<Item>): nat {
    if items == [] then 0
    else
      CountNew(existing, items[..|items| - 1])
      + (if FindByAsin(existing, items[|items| - 1].asin).None? then 1 else 0)
  }

  /** The items whose product is not in the lookup map, in order: those that create one. */
  function Unmapped(existing: seq<Produto>, items: seq<Item>): (r: seq<Item>)
    ensures |r| == CountNew(existing, items)
    ensures forall k :: 0 <= k < |r| ==> r[k] in items && FindByAsin(existing, r[k].asin).None?
  {
    if items == [] then []
    else
      var last := items[|items| - 1];
      Unmapped(existing, items[..|items| - 1]) + (if FindByAsin(existing, last.asin).None? then [last] else [])
  }

  /**
   * `Unmapped` is the order-keeping filter: it distributes over concatenation,
   * and keeps a single item exactly when its asin is not in the lookup map.
   */
  lemma {:induction false} UnmappedAppend(existing: seq<Produto>, a: seq<Item>, b: seq<Item>)
    ensures Unmapped(existing, a + b) == Unmapped(existing, a) + Unmapped(existing, b)
    decreases |b|
  {
    if b == [] {
      assert a + b == a;
    } else {
      var b' := b[..|b| - 1];
      assert (a + b)[..|a + b| - 1] == a + b';
      UnmappedAppend(existing, a, b');
    }
  }

  lemma UnmappedOne(existing: seq<Produto>, item: Item)
    ensures Unmapped(existing, [item]) == (if FindByAsin(existing, item.asin).None? then [item] else [])
  {
    assert [item][..0] == [];
  }

  /**
   * From index `base` on, `ps` holds the products built for the unmapped items,
   * in order, with consecutive ids from `firstId`.
   */
  predicate ProductsOf(ps: seq<Produto>, base: nat, firstId: nat, existing: seq<Produto>, items: seq<Item>) {
    && |ps| == base + |Unmapped(existing, items)|
    && forall k :: 0 <= k < |Unmapped(existing, items)| ==>
         var item := Unmapped(existing, items)[k];
         ps[base + k] == Produto(firstId + k, item.asin, item.nome, item.link, item.imagem)
  }

  /** Some product in `ps` has this non-null asin. */
  predicate Stored(ps: seq<Produto>, asin: Option<string>) {
    asin.Some? && exists i :: 0 <= i < |ps| && ps[i].asin == asin
  }

  /** `row` is the history row written for `item`: its price, its parsed stamp, its product. */
  predicate RowFor(ps: seq<Produto>, row: HistoricoPreco, item: Item) {
    && row.preco == item.preco
    && Parse(item.dataExtracao) == Some(row.dataExtracao)
    && exists i :: 0 <= i < |ps| && ps[i].id == row.produtoId && ps[i].asin == item.asin
  }

  /** `a` is an initial part of `b`: rows are only ever appended. */
  predicate Extends<T(==)>(b: seq<T>, a: seq<T>) {
    |a| <= |b| && b[..|a|] == a
  }

  lemma RowForExtends(ps: seq<Produto>, ps': seq<Produto>, row: HistoricoPreco, item: Item)
    requires Extends(ps', ps) && RowFor(ps, row, item)
    ensures RowFor(ps', row, item)
  {
    var i :| 0 <= i < |ps| && ps[i].id == row.produtoId && ps[i].asin == item.asin;
    assert ps'[i] == ps[i];
  }

  lemma StoredExtends(ps: seq<Produto>, ps': seq<Produto>, asin: Option<string>)
    requires Extends(ps', ps) && Stored(ps, asin)
    ensures Stored(ps', asin)
  {
    var i :| 0 <= i < |ps| && ps[i].asin == asin;
    assert ps'[i] == ps[i];
  }

  /**
   * Finding or adding the item's product only appends, adds a product iff the
   * ASIN is not in the lookup map, and leaves a product with the item's ASIN
   * under the id the history row will use.
   */
  lemma AttachedFacts(existing: seq<Produto>, s: Session, item: Item)
    requires Extends(s.produtos, existing)
    ensures var t := Attached(existing, s, item);
      && Extends(t.produtos, s.produtos)
      && |t.produtos| == |s.produtos| + (if FindByAsin(existing, item.asin).None? then 1 else 0)
      && t.historico == s.historico && t.nextHistoricoId == s.nextHistoricoId && t.processed == s.processed
      && t.nextProdutoId == s.nextProdutoId + (if FindByAsin(existing, item.asin).None? then 1 else 0)
      && (FindByAsin(existing, item.asin).None? ==>
           t.produtos[|s.produtos|] == Produto(s.nextProdutoId, item.asin, item.nome, item.link, item.imagem))
      && exists i :: 0 <= i < |t.produtos| && t.produtos[i].id == AttachedId(existing, s, item) && t.produtos[i].asin == item.asin
  {
    var found := FindByAsin(existing, item.asin);
    var t := Attached(existing, s, item);
    if found.Some? {
      var k :| 0 <= k < |existing| && existing[k] == found.value;
      assert s.produtos[k] == found.value;
      assert t.produtos[k].id == AttachedId(existing, s, item);
      ExtendsRefl(s.produtos);
    } else {
      var novo := NewProduct(s.nextProdutoId, item);
      assert t.produtos[|s.produtos|] == novo;
      ExtendsAppend(s.produtos, novo);
    }
  }

  /** Adding a product the database accepts keeps the session valid. */
  lemma AttachedValid(existing: seq<Produto>, s: Session, item: Item)
    requires SessionValid(s)
    requires FindByAsin(existing, item.asin).None? ==> CheckInsert(s.produtos, NewProduct(s.nextProdutoId, item)).None?
    ensures SessionValid(Attached(existing, s, item))
  {
    if FindByAsin(existing, item.asin).None? {
      InsertKeepsValid(s.produtos, s.historico, s.nextProdutoId, s.nextHistoricoId, NewProduct(s.nextProdutoId, item));
    }
  }

  /** Recording a price row for a stored product keeps the session valid. */
  lemma RowAppendedValid(s: Session, row: HistoricoPreco)
    requires SessionValid(s) && row.id == s.nextHistoricoId && HasProduct(s.produtos, row.produtoId)
    ensures SessionValid(s.(historico := s.historico + [row], nextHistoricoId := s.nextHistoricoId + 1, processed := s.processed + 1))
  {
    AppendKeepsValid(s.produtos, s.historico, s.nextProdutoId, s.nextHistoricoId, row);
  }

  /** A successful iteration attaches the product and, for a priced item, appends its row. */
  lemma StepShape(existing: seq<Produto>, s: Session, item: Item)
    requires Step(existing, s, item).Success?
    ensures FindByAsin(existing, item.asin).None? ==> CheckInsert(s.produtos, NewProduct(s.nextProdutoId, item)).None?
    ensures item.preco.None? ==> Step(existing, s, item).value == Attached(existing, s, item)
    ensures item.preco.Some? ==> Parse(item.dataExtracao).Some?
    ensures item.preco.Some? ==>
      var s1 := Attached(existing, s, item);
      var row := HistoricoPreco(s1.nextHistoricoId, item.preco, Parse(item.dataExtracao).value, AttachedId(existing, s, item));
      Step(existing, s, item).value == s1.(historico := s1.historico + [row], nextHistoricoId := s1.nextHistoricoId + 1, processed := s1.processed + 1)
  {
  }

  /** One successful iteration keeps the session valid. */
  lemma StepKeepsValid(existing: seq<Produto>, s: Session, item: Item)
    requires SessionValid(s) && Extends(s.produtos, existing)
    requires Step(existing, s, item).Success?
    ensures SessionValid(Step(existing, s, item).value)
  {
    var s1 := Attached(existing, s, item);
    StepShape(existing, s, item);
    AttachedValid(existing, s, item);
    if item.preco.Some? {
      AttachedFacts(existing, s, item);
      var row := HistoricoPreco(s1.nextHistoricoId, item.preco, Parse(item.dataExtracao).value, AttachedId(existing, s, item));
      assert HasProduct(s1.produtos, row.produtoId);
      RowAppendedValid(s1, row);
    }
  }

  /** What one successful iteration does to the tables and the counter. */
  lemma StepFacts(existing: seq<Produto>, s: Session, item: Item)
    requires Extends(s.produtos, existing)
    requires Step(existing, s, item).Success?
    ensures var t := Step(existing, s, item).value;
      && Extends(t.produtos, s.produtos)
      && |t.produtos| == |s.produtos| + (if FindByAsin(existing, item.asin).None? then 1 else 0)
      && Stored(t.produtos, item.asin)
      && t.processed == s.processed + (if item.preco.Some? then 1 else 0)
      && |t.historico| == |s.historico| + (if item.preco.Some? then 1 else 0)
      && Extends(t.historico, s.historico)
      && (item.preco.Some? ==> RowFor(t.produtos, t.historico[|s.historico|], item))
      && t.nextProdutoId == s.nextProdutoId + (if FindByAsin(existing, item.asin).None? then 1 else 0)
      && (FindByAsin(existing, item.asin).None? ==>
           t.produtos[|s.produtos|] == Produto(s.nextProdutoId, item.asin, item.nome, item.link, item.imagem))
  {
    var s1 := Attached(existing, s, item);
    var pid := AttachedId(existing, s, item);
    StepShape(existing, s, item);
    AttachedFacts(existing, s, item);
    var i :| 0 <= i < |s1.produtos| && s1.produtos[i].id == pid && s1.produtos[i].asin == item.asin;
    assert Stored(s1.produtos, item.asin);
    if item.preco.Some? {
      var row := HistoricoPreco(s1.nextHistoricoId, item.preco, Parse(item.dataExtracao).value, pid);
      ExtendsAppend(s1.historico, row);
      assert RowFor(s1.produtos, row, item);
    } else {
      ExtendsRefl(s.historico);
    }
  }

  lemma ExtendsAppend<T>(a: seq<T>, x: T)
    ensures Extends(a + [x], a)
  {
    assert (a + [x])[..|a|] == a;
  }

  lemma ExtendsRefl<T>(a: seq<T>)
    ensures Extends(a, a)
  {
    assert a[..|a|] == a;
  }

  lemma ExtendsTrans<T>(a: seq<T>, b: seq<T>, c: seq<T>)
    requires Extends(b, a) && Extends(c, b)
    ensures Extends(c, a)
  {
    assert c[..|a|] == c[..|b|][..|a|];
  }

  /** One successful iteration keeps the stored products and leaves the item's asin stored. */
  lemma StepStores(existing: seq<Produto>, s: Session, item: Item)
    requires Extends(s.produtos, existing)
    requires Step(existing, s, item).Success?
    ensures Extends(Step(existing, s, item).value.produtos, s.produtos)
    ensures Stored(Step(existing, s, item).value.produtos, item.asin)
  {
    var t := Step(existing, s, item).value;
    var found := FindByAsin(existing, item.asin);
    if found.Some? {
      assert t.produtos == s.produtos;
      var i :| 0 <= i < |existing| && existing[i] == found.value;
      assert s.produtos[i] == existing[i];
    } else {
      var novo := NewProduct(s.nextProdutoId, item);
      assert t.produtos == s.produtos + [novo];
      assert t.produtos[|s.produtos|] == novo;
    }
  }

  /**
   * What a successful pass over `items` does to the tables: they stay valid;
   * stored products are kept as they were and one product is added per item
   * missing from the lookup map; history rows are only appended, one per
   * priced item; the returned count is the number of priced items.
   */
  lemma {:induction false} RunShape(existing: seq<Produto>, s: Session, items: seq<Item>)
    requires Extends(s.produtos, existing)
    requires Run(existing, s, items).Success?
    ensures var t := Run(existing, s, items).value;
      && Extends(t.produtos, s.produtos)
      && |t.produtos| == |s.produtos| + CountNew(existing, items)
      && t.processed == s.processed + CountPriced(items)
      && |t.historico| == |s.historico| + CountPriced(items)
      && Extends(t.historico, s.historico)
  {
    if items != [] {
      var init, last := items[..|items| - 1], items[|items| - 1];
      RunShape(existing, s, init);
      var u := Run(existing, s, init).value;
      var t := Run(existing, s, items).value;
      assert Run(existing, s, items) == Step(existing, u, last);
      ExtendsTrans(existing, s.produtos, u.produtos);
      StepFacts(existing, u, last);
      ExtendsTrans(s.produtos, u.produtos, t.produtos);
      ExtendsTrans(s.historico, u.historico, t.historico);
    } else {
      ExtendsRefl(s.produtos);
      ExtendsRefl(s.historico);
    }
  }

  /**
   * The products a successful pass creates are, in order, those built from the
   * items missing from the lookup map: each with the item's asin, name, link
   * and image, under consecutive ids.
   */
  lemma {:induction false} RunProducts(existing: seq<Produto>, s: Session, items: seq<Item>)
    requires Extends(s.produtos, existing)
    requires Run(existing, s, items).Success?
    ensures var t := Run(existing, s, items).value;
      && ProductsOf(t.produtos, |s.produtos|, s.nextProdutoId, existing, items)
      && t.nextProdutoId == s.nextProdutoId + CountNew(existing, items)
  {
    if items != [] {
      var init, last := items[..|items| - 1], items[|items| - 1];
      RunProducts(existing, s, init);
      RunShape(existing, s, init);
      var u := Run(existing, s, init).value;
      var t := Run(existing, s, items).value;
      assert Run(existing, s, items) == Step(existing, u, last);
      ExtendsTrans(existing, s.produtos, u.produtos);
      StepFacts(existing, u, last);
      ProductsGrow(existing, items, init, |s.produtos|, s.nextProdutoId, u.produtos, t.produtos, u.nextProdutoId);
    } else {
      assert Unmapped(existing, items) == [];
    }
  }

  lemma ProductsGrow(existing: seq<Produto>, items: seq<Item>, init: seq<Item>, base: nat, firstId: nat,
                     ps: seq<Produto>, ps': seq<Produto>, nextId: nat)
    requires items != [] && init == items[..|items| - 1]
    requires ProductsOf(ps, base, firstId, existing, init) && nextId == firstId + CountNew(existing, init)
    requires Extends(ps', ps)
    requires |ps'| == |ps| + (if FindByAsin(existing, items[|items| - 1].asin).None? then 1 else 0)
    requires var last := items[|items| - 1];
      FindByAsin(existing, last.asin).None? ==> ps'[|ps|] == Produto(nextId, last.asin, last.nome, last.link, last.imagem)
    ensures ProductsOf(ps', base, firstId, existing, items)
  {
    var a, b := Unmapped(existing, init), Unmapped(existing, items);
    forall k | 0 <= k < |b| ensures ps'[base + k] == Produto(firstId + k, b[k].asin, b[k].nome, b[k].link, b[k].imagem) {
      if k < |a| {
        assert b[k] == a[k];
        assert ps'[base + k] == ps[base + k];
      }
    }
  }

  /** A successful pass from a valid session leaves the tables valid. */
  lemma {:induction false} RunKeepsValid(existing: seq<Produto>, s: Session, items: seq<Item>)
    requires SessionValid(s) && Extends(s.produtos, existing)
    requires Run(existing, s, items).Success?
    ensures SessionValid(Run(existing, s, items).value)
  {
    if items != [] {
      var init, last := items[..|items| - 1], items[|items| - 1];
      RunKeepsValid(existing, s, init);
      RunShape(existing, s, init);
      var u := Run(existing, s, init).value;
      assert Run(existing, s, items) == Step(existing, u, last);
      ExtendsTrans(existing, s.produtos, u.produtos);
      StepKeepsValid(existing, u, last);
    }
  }

  /** After a successful pass every item's product is stored, under the item's asin. */
  lemma {:induction false} RunStores(existing: seq<Produto>, s: Session, items: seq<Item>)
    requires Extends(s.produtos, existing)
    requires Run(existing, s, items).Success?
    ensures Extends(Run(existing, s, items).value.produtos, s.produtos)
    ensures forall k :: 0 <= k < |items| ==> Stored(Run(existing, s, items).value.produtos, items[k].asin)
  {
    if items != [] {
      var init, last := items[..|items| - 1], items[|items| - 1];
      RunStores(existing, s, init);
      var u := Run(existing, s, init).value;
      assert Run(existing, s, items) == Step(existing, u, last);
      var t := Run(existing, s, items).value;
      ExtendsTrans(existing, s.produtos, u.produtos);
      StepStores(existing, u, last);
      ExtendsTrans(s.produtos, u.produtos, t.produtos);
      StoresGrow(items, init, u.produtos, t.produtos);
    }
  }

  lemma StoresGrow(items: seq<Item>, init: seq<Item>, ps: seq<Produto>, ps': seq<Produto>)
    requires items != [] && init == items[..|items| - 1]
    requires forall k :: 0 <= k < |init| ==> Stored(ps, init[k].asin)
    requires Extends(ps', ps) && Stored(ps', items[|items| - 1].asin)
    ensures forall k :: 0 <= k < |items| ==> Stored(ps', items[k].asin)
  {
    forall k | 0 <= k < |init| ensures Stored(ps', items[k].asin) {
      assert init[k] == items[k];
      StoredExtends(ps, ps', items[k].asin);
    }
  }

  /** From index `base` on, `hs` holds the rows of the priced items, in order. */
  predicate RowsOf(ps: seq<Produto>, hs: seq<HistoricoPreco>, base: nat, items: seq<Item>) {
    && |hs| == base + |Priced(items)|
    && forall k :: 0 <= k < |Priced(items)| ==> RowFor(ps, hs[base + k], Priced(items)[k])
  }

  /**
   * The rows a successful pass appends are, in order, the rows of the priced
   * items: each with the item's price and parsed stamp, referencing the
   * product stored under the item's asin.
   */
  lemma {:induction false} RunRows(existing: seq<Produto>, s: Session, items: seq<Item>)
    requires Extends(s.produtos, existing)
    requires Run(existing, s, items).Success?
    ensures var t := Run(existing, s, items).value;
      RowsOf(t.produtos, t.historico, |s.historico|, items)
  {
    if items != [] {
      var init, last := items[..|items| - 1], items[|items| - 1];
      RunRows(existing, s, init);
      RunShape(existing, s, init);
      var u := Run(existing, s, init).value;
      var t := Run(existing, s, items).value;
      assert Run(existing, s, items) == Step(existing, u, last);
      ExtendsTrans(existing, s.produtos, u.produtos);
      StepFacts(existing, u, last);
      RowsGrow(items, init, |s.historico|, u.produtos, u.historico, t.produtos, t.historico);
    }
  }

  lemma RowsGrow(items: seq<Item>, init: seq<Item>, base: nat,
                 ps: seq<Produto>, hs: seq<HistoricoPreco>, ps': seq<Produto>, hs': seq<HistoricoPreco>)
    requires items != [] && init == items[..|items| - 1]
    requires RowsOf(ps, hs, base, init)
    requires Extends(ps', ps) && Extends(hs', hs)
    requires |hs'| == |hs| + (if items[|items| - 1].preco.Some? then 1 else 0)
    requires items[|items| - 1].preco.Some? ==> RowFor(ps', hs'[|hs|], items[|items| - 1])
    ensures RowsOf(ps', hs', base, items)
  {
    var last := items[|items| - 1];
    assert Priced(items) == Priced(init) + (if last.preco.Some? then [last] else []);
    forall k | 0 <= k < |Priced(items)| ensures RowFor(ps', hs'[base + k], Priced(items)[k]) {
      if k < |Priced(init)| {
        assert Priced(items)[k] == Priced(init)[k];
        assert hs'[base + k] == hs[base + k];
        RowForExtends(ps, ps', hs[base + k], Priced(init)[k]);
      } else {
        assert Priced(items)[k] == last;
      }
    }
  }

  /** An exception in a prefix of the batch is the exception of the whole batch. */
  lemma {:induction false} RunPrefixFailure(existing: seq<Produto>, s: Session, items: seq<Item>, n: nat)
    requires n <= |items| && Run(existing, s, items[..n]).Failure?
    ensures Run(existing, s, items) == Run(existing, s, items[..n])
    decreases |items| - n
  {
    if n < |items| {
      assert items[..n + 1][..n] == items[..n];
      RunPrefixFailure(existing, s, items, n + 1);
    } else {
      assert items[..n] == items;
    }
  }

  /** If the iteration for `items[j]` raises, whatever came before, the batch fails. */
  lemma FailsAt(existing: seq<Produto>, s: Session, items: seq<Item>, j: nat)
    requires j < |items|
    requires Run(existing, s, items[..j]).Success? ==> Step(existing, Run(existing, s, items[..j]).value, items[j]).Failure?
    ensures Run(existing, s, items).Failure?
  {
    assert items[..j + 1][..j] == items[..j];
    RunPrefixFailure(existing, s, items, j + 1);
  }

  /** An item without an asin makes the flush break `nullable=False`: nothing is stored. */
  lemma NullAsinAborts(existing: seq<Produto>, s: Session, items: seq<Item>, j: nat)
    requires j < |items| && items[j].asin.None?
    ensures Run(existing, s, items).Failure?
  {
    FailsAt(existing, s, items, j);
  }

  /** A priced item whose stamp `strptime` rejects aborts the batch: nothing is stored. */
  lemma BadStampAborts(existing: seq<Produto>, s: Session, items: seq<Item>, j: nat)
    requires j < |items| && items[j].preco.Some? && Parse(items[j].dataExtracao).None?
    ensures Run(existing, s, items).Failure?
  {
    FailsAt(existing, s, items, j);
  }

  /**
   * The lookup map is never updated, so an asin that was not stored before the
   * call and appears twice in the batch is inserted twice; the second flush
   * breaks `unique=True` and nothing is stored.
   */
  lemma RepeatedNewAsinAborts(existing: seq<Produto>, s: Session, items: seq<Item>, i: nat, j: nat)
    requires SessionValid(s) && Extends(s.produtos, existing)
    requires i < j < |items| && items[i].asin == items[j].asin
    requires FindByAsin(existing, items[i].asin).None?
    ensures Run(existing, s, items).Failure?
  {
    var init := items[..j];
    if Run(existing, s, init).Success? {
      RunStores(existing, s, init);
      assert init[i] == items[i];
      var u := Run(existing, s, init).value;
      assert Stored(u.produtos, items[j].asin);
      assert CheckInsert(u.produtos, NewProduct(u.nextProdutoId, items[j])).Some?;
    }
    FailsAt(existing, s, items, j);
  }

  /**
   * A pass in which every item's product is already in the lookup map and
   * every priced stamp is readable succeeds without creating any product.
   */
  lemma {:induction false} RunKnownItems(existing: seq<Produto>, s: Session, items: seq<Item>)
    requires forall k :: 0 <= k < |items| ==> FindByAsin(existing, items[k].asin).Some?
    requires forall k :: 0 <= k < |items| && items[k].preco.Some? ==> Parse(items[k].dataExtracao).Some?
    ensures Run(existing, s, items).Success?
    ensures Run(existing, s, items).value.produtos == s.produtos
    ensures Run(existing, s, items).value.nextProdutoId == s.nextProdutoId
    ensures Run(existing, s, items).value.processed == s.processed + CountPriced(items)
  {
    if items != [] {
      var init := items[..|items| - 1];
      assert forall k :: 0 <= k < |init| ==> init[k] == items[k];
      RunKnownItems(existing, s, init);
    }
  }

  /**
   * Ingesting the same batch again right after a successful pass creates no
   * product and appends one more history row per priced item.
   */
  lemma ReingestCreatesNothing(s: Session, items: seq<Item>)
    requires Run(s.produtos, s, items).Success?
    ensures var t := Run(s.produtos, s, items).value;
      && Run(t.produtos, t, items).Success?
      && Run(t.produtos, t, items).value.produtos == t.produtos
      && Run(t.produtos, t, items).value.processed == t.processed + CountPriced(items)
      && |Run(t.produtos, t, items).value.historico| == |t.historico| + CountPriced(items)
  {
    var t := Run(s.produtos, s, items).value;
    ExtendsRefl(s.produtos);
    RunStores(s.produtos, s, items);
    forall k | 0 <= k < |items| ensures FindByAsin(t.produtos, items[k].asin).Some? {
      assert Stored(t.produtos, items[k].asin);
    }
    forall k | 0 <= k < |items| && items[k].preco.Some? ensures Parse(items[k].dataExtracao).Some? {
      if Parse(items[k].dataExtracao).None? {
        BadStampAborts(s.produtos, s, items, k);
      }
    }
    RunKnownItems(t.produtos, t, items);
    ExtendsRefl(t.produtos);
    RunShape(t.produtos, t, items);
  }

  /** The stamps the extractor writes are always read back by the reconciler. */
  lemma ScrapedStampsParse(nodes: seq<ItemNode>, now: DateTime)
    requires ValidDateTime(now)
    requires ScraperCore.ExtractAll(nodes, Format(now)).Success?
    ensures forall item :: item in ScraperCore.ExtractAll(nodes, Format(now)).value ==> Parse(item.dataExtracao) == Some(now)
  {
    ScraperCore.ExtractAllRecords(nodes, Format(now));
    ParseFormat(now);
  }

  /**
   * The generic scraping error carries no `"error_code"`, so it is not
   * rejected, and it has no `"itens"`: it is processed as an empty batch.
   */
  lemma CrashedPassesAsEmpty(d: ScraperCore.ScrapeOutcome)
    requires d.Crashed?
    ensures ScraperErrors(d).None? && ItemsToProcess(d) == []
  {
  }

  /**
   * The body of the loop in `processar_dados_raspados_no_db` for one item,
   * against the open session: look the asin up, create and flush the product
   * if it is missing, skip a `None` price, parse the stamp and add the row.
   */
  method ProcessItem(existing: seq<Produto>, pending: Session, item: Item) returns (r: Result<Session, DbError>)
    ensures r == Step(existing, pending, item)
  {
    var produto := FindByAsin(existing, item.asin);
    var next := pending;
    var pid: nat;
    if produto.Some? {
      pid := produto.value.id;
    } else {
      var novo := NewProduct(next.nextProdutoId, item);
      var violation := CheckInsert(next.produtos, novo);
      if violation.Some? {
        return Failure(Integrity(violation.value));
      }
      next := next.(produtos := next.produtos + [novo], nextProdutoId := next.nextProdutoId + 1);
      pid := novo.id;
    }
    if item.preco.None? {
      return Success(next);
    }
    var when := Parse(item.dataExtracao);
    if when.None? {
      return Failure(BadTimestamp(item.dataExtracao));
    }
    var row := HistoricoPreco(next.nextHistoricoId, item.preco, when.value, pid);
    r := Success(next.(historico := next.historico + [row], nextHistoricoId := next.nextHistoricoId + 1,
                       processed := next.processed + 1));
  }

  /** The pass over one more item is one more step. */
  lemma RunStep(existing: seq<Produto>, s: Session, items: seq<Item>, i: nat)
    requires i < |items| && Run(existing, s, items[..i]).Success?
    ensures Run(existing, s, items[..i + 1]) == Step(existing, Run(existing, s, items[..i]).value, items[i])
  {
    assert items[..i + 1][..i] == items[..i];
  }

  lemma RunWhole(existing: seq<Produto>, s: Session, items: seq<Item>)
    ensures Run(existing, s, items[..|items|]) == Run(existing, s, items)
  {
    assert items[..|items|] == items;
  }

  /** The committed database: the two tables and the next ids. */
  class Catalog {
    var produtos: seq<Produto>
    var historico: seq<HistoricoPreco>
    var nextProdutoId: nat
    var nextHistoricoId: nat

    ghost predicate Valid()
      reads this
    {
      CatalogValid(produtos, historico, nextProdutoId, nextHistoricoId)
    }

    /** The committed tables, as a fresh session sees them. */
    function Snapshot(): Session
      reads this
    {
      Session(produtos, historico, nextProdutoId, nextHistoricoId, 0)
    }

    constructor ()
      ensures Valid() && produtos == [] && historico == []
    {
      produtos, historico := [], [];
      nextProdutoId, nextHistoricoId := 1, 1;
    }

    /**
     * `processar_dados_raspados_no_db`: runs the batch against a session and
     * commits only after the loop, so a failure leaves the catalog as it was.
     */
    method ProcessScraped(dados: ScraperCore.ScrapeOutcome) returns (r: Result<nat, DbError>)
      requires Valid()
      modifies this
      ensures Valid()
      ensures var run := Run(old(produtos), old(Snapshot()), ItemsToProcess(dados));
        && (r.Failure? <==> run.Failure?)
        && (r.Failure? ==> r.error == run.error)
        && (r.Success? ==> r.value == run.value.processed && Snapshot() == run.value.(processed := 0))
      ensures r.Failure? ==> unchanged(this)
      ensures r.Success? ==> r.value == CountPriced(ItemsToProcess(dados))
      ensures r.Success? ==> Extends(produtos, old(produtos)) && Extends(historico, old(historico))
    {
      var itens := ItemsToProcess(dados);
      if itens == [] {
        return Success(0);
      }
      var existing := produtos;
      ghost var start := Snapshot();
      var pending := Snapshot();
      var i := 0;
      while i < |itens|
        invariant 0 <= i <= |itens|
        invariant Run(existing, start, itens[..i]) == Success(pending)
        invariant unchanged(this)
      {
        RunStep(existing, start, itens, i);
        var next := ProcessItem(existing, pending, itens[i]);
        if next.Failure? {
          RunPrefixFailure(existing, start, itens, i + 1);
          return Failure(next.error);
        }
        pending := next.value;
        i := i + 1;
      }
      RunWhole(existing, start, itens);
      RunShape(existing, start, itens);
      RunKeepsValid(existing, start, itens);
      produtos, historico, nextProdutoId, nextHistoricoId := pending.produtos, pending.historico, pending.nextProdutoId, pending.nextHistoricoId;
      r := Success(pending.processed);
    }
  }
}
