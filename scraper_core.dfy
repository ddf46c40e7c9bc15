/**
 * `scraper/core.py`: the tolerant item extractor, the list-name lookup and the
 * page classification of `executar_scraping`, over the abstract page.
 */
module ScraperCore {
  import opened Wrappers
  import opened Text
  import opened Price
  import opened Dom
  import Timestamp

  /** `extrair_nome_lista`: the stripped list-name text, or the sentinel. */
  function ListName(page: Page): (r: string)
    ensures page.listName.None? ==> r == NameSentinel
    ensures page.listName.Some? ==>
      exists i | 0 <= i <= |page.listName.value| - |r| ::
        && r == page.listName.value[i..i + |r|]
        && AllSpace(page.listName.value[..i]) && AllSpace(page.listName.value[i + |r|..])
    ensures page.listName.Some? ==> r == [] || (!IsSpace(r[0]) && !IsSpace(r[|r| - 1]))
  {
    match page.listName
    case None => NameSentinel
    case Some(t) => Strip(t)
  }

  /**
   * The price part of `extrair_dados_itens`: no price element, no inner span or
   * an empty cleaned text give `None`; otherwise `float` either reads the
   * cleaned text with its comma as the decimal point or raises `ValueError`,
   * which the `except (AttributeError, TypeError)` does not catch.
   */
  function PriceOf(tag: Option<PriceTag>): (r: Result<Option<Decimal>, Fault>)
    ensures r.Failure? ==> r.error.ValueError?
    ensures r == Success(None) <==>
      tag.None? || tag.value.hiddenText.None? || Clean(tag.value.hiddenText.value) == []
    ensures r.Failure? <==>
      tag.Some? && tag.value.hiddenText.Some? && Clean(tag.value.hiddenText.value) != []
      && !(HasDigit(Clean(tag.value.hiddenText.value)) && AtMostOnce(Clean(tag.value.hiddenText.value), ','))
    ensures r.Success? && r.value.Some? ==>
      tag.Some? && tag.value.hiddenText.Some? && r.value == ToFloat(Clean(tag.value.hiddenText.value))
  {
    match tag
    case None => Success(None)
    case Some(PriceTag(None)) => Success(None)
    case Some(PriceTag(Some(text))) =>
      var cleaned := Clean(Strip(text));
      CleanIgnoresStrip(text);
      if cleaned == [] then Success(None)
      else
        match ToFloat(cleaned)
        case None => Failure(ValueError(CommaToDot(cleaned)))
        case Some(d) => Success(Some(d))
  }

  /**
   * `extrair_dados_itens`: `None` exactly when the node has no anchor; an
   * escaping `ValueError` exactly when the anchored node's price is malformed;
   * otherwise the record with its defaults.
   */
  function ExtractItem(node: ItemNode, stamp: string): (r: Result<Option<Item>, Fault>)
    ensures r == Success(None) <==> node.anchor.None?
    ensures r.Failure? <==> node.anchor.Some? && PriceOf(node.price).Failure?
    ensures r.Failure? ==> r.error.ValueError?
  {
    match node.anchor
    case None => Success(None)
    case Some(a) =>
      match PriceOf(node.price)
      case Failure(f) => Failure(f)
      case Success(p) => Success(Some(Record(node, p, stamp)))
  }

  /**
   * The record of an anchored node: the title or the name sentinel, the store
   * prefix before the href, the image source or the image sentinel, the code
   * found in the full link, the price, and the stamp.
   */
  lemma ItemFields(node: ItemNode, stamp: string)
    requires ExtractItem(node, stamp).Success? && ExtractItem(node, stamp).value.Some?
    ensures var item := ExtractItem(node, stamp).value.value;
      && item.nome == node.anchor.value.title.GetOr(NameSentinel)
      && item.link == LinkPrefix + node.anchor.value.href.GetOr("")
      && item.imagem == ItemImage(node.image)
      && item.asin == Asin.ExtractAsin(item.link)
      && PriceOf(node.price) == Success(item.preco)
      && item.dataExtracao == stamp
  {
  }

  /** The nodes that carry an anchor, in page order. */
  function Anchored(nodes: seq<ItemNode>): (r: seq<ItemNode>)
    ensures |r| <= |nodes|
    ensures forall k :: 0 <= k < |r| ==> r[k].anchor.Some? && r[k] in nodes
    ensures forall i :: 0 <= i < |nodes| && nodes[i].anchor.Some? ==> nodes[i] in r
  {
    if nodes == [] then []
    else
      var last := nodes[|nodes| - 1];
      Anchored(nodes[..|nodes| - 1]) + (if last.anchor.Some? then [last] else [])
  }

  /**
   * `Anchored` is the order-keeping filter: it distributes over concatenation,
   * and keeps a single node exactly when it has an anchor.
   */
  lemma {:induction false} AnchoredAppend(a: seq<ItemNode>, b: seq<ItemNode>)
    ensures Anchored(a + b) == Anchored(a) + Anchored(b)
    decreases |b|
  {
    if b == [] {
      assert a + b == a;
    } else {
      var b', last := b[..|b| - 1], b[|b| - 1];
      assert (a + b)[..|a + b| - 1] == a + b';
      AnchoredAppend(a, b');
    }
  }

  lemma AnchoredOne(n: ItemNode)
    ensures Anchored([n]) == (if n.anchor.Some? then [n] else [])
  {
    assert [n][..0] == [];
  }

  /**
   * What `extrair_itens_lista` computes: the records of the anchored nodes, in
   * order, all with the one stamp; or the first escaping exception, which is
   * always a `ValueError`.
   */
  function ExtractAll(nodes: seq<ItemNode>, stamp: string): (r: Result<seq<Item>, Fault>)
    ensures r.Failure? ==> r.error.ValueError?
  {
    if nodes == [] then Success([])
    else
      match ExtractAll(nodes[..|nodes| - 1], stamp)
      case Failure(f) => Failure(f)
      case Success(acc) =>
        match ExtractItem(nodes[|nodes| - 1], stamp)
        case Failure(f) => Failure(f)
        case Success(None) => Success(acc)
        case Success(Some(item)) => Success(acc + [item])
  }

  /** The list fails exactly when the extraction of some node raises. */
  lemma ExtractAllFails(nodes: seq<ItemNode>, stamp: string)
    ensures ExtractAll(nodes, stamp).Failure? <==> exists i :: 0 <= i < |nodes| && ExtractItem(nodes[i], stamp).Failure?
  {
    if ExtractAll(nodes, stamp).Failure? {
      FailureHasCause(nodes, stamp);
    } else {
      forall i | 0 <= i < |nodes| ensures ExtractItem(nodes[i], stamp).Success? {
        if ExtractItem(nodes[i], stamp).Failure? {
          CauseFails(nodes, stamp, i);
        }
      }
    }
  }

  /** A failing list has a node whose extraction raises. */
  lemma {:induction false} FailureHasCause(nodes: seq<ItemNode>, stamp: string)
    requires ExtractAll(nodes, stamp).Failure?
    ensures exists i :: 0 <= i < |nodes| && ExtractItem(nodes[i], stamp).Failure?
  {
    var init := nodes[..|nodes| - 1];
    FailsAtLast(nodes, stamp);
    if ExtractAll(init, stamp).Failure? {
      FailureHasCause(init, stamp);
      var i :| 0 <= i < |init| && ExtractItem(init[i], stamp).Failure?;
      assert init[i] == nodes[i];
    } else {
      assert ExtractItem(nodes[|nodes| - 1], stamp).Failure?;
    }
  }

  /** A node whose extraction raises makes the whole list fail. */
  lemma CauseFails(nodes: seq<ItemNode>, stamp: string, i: nat)
    requires i < |nodes| && ExtractItem(nodes[i], stamp).Failure?
    ensures ExtractAll(nodes, stamp).Failure?
  {
    var prefix := nodes[..i + 1];
    assert prefix[i] == nodes[i];
    FailsAtLast(prefix, stamp);
    PrefixFailure(nodes, stamp, i + 1);
  }

  /**
   * The exception that ends the loop is the one raised by the first node whose
   * extraction raises: every node before it is extracted without raising.
   */
  lemma {:induction false} FirstFailure(nodes: seq<ItemNode>, stamp: string)
    requires ExtractAll(nodes, stamp).Failure?
    ensures exists i :: (0 <= i < |nodes|
      && ExtractItem(nodes[i], stamp) == Failure(ExtractAll(nodes, stamp).error)
      && NoneRaiseBefore(nodes, i, stamp))
  {
    var init, f := nodes[..|nodes| - 1], ExtractAll(nodes, stamp).error;
    if ExtractAll(init, stamp).Failure? {
      assert ExtractAll(init, stamp) == Failure(f);
      FirstFailure(init, stamp);
      var i :| 0 <= i < |init| && ExtractItem(init[i], stamp) == Failure(f) && NoneRaiseBefore(init, i, stamp);
      NoneRaisePrefix(nodes, init, i, stamp);
      assert init[i] == nodes[i];
    } else {
      assert ExtractItem(nodes[|nodes| - 1], stamp) == Failure(f);
      forall j | 0 <= j < |init| ensures ExtractItem(nodes[j], stamp).Success? {
        if ExtractItem(nodes[j], stamp).Failure? {
          assert init[j] == nodes[j];
          CauseFails(init, stamp, j);
        }
      }
      assert NoneRaiseBefore(nodes, |init|, stamp);
    }
  }

  /** Every node before index `i` is extracted without raising. */
  predicate NoneRaiseBefore(nodes: seq<ItemNode>, i: nat, stamp: string)
    requires i <= |nodes|
  {
    forall j :: 0 <= j < i ==> ExtractItem(nodes[j], stamp).Success?
  }

  lemma NoneRaisePrefix(nodes: seq<ItemNode>, init: seq<ItemNode>, i: nat, stamp: string)
    requires |init| <= |nodes| && init == nodes[..|init|] && i <= |init|
    requires NoneRaiseBefore(init, i, stamp)
    ensures NoneRaiseBefore(nodes, i, stamp)
  {
    forall j | 0 <= j < i ensures ExtractItem(nodes[j], stamp).Success? {
      assert init[j] == nodes[j];
    }
  }

  lemma FailsAtLast(nodes: seq<ItemNode>, stamp: string)
    requires nodes != []
    ensures ExtractAll(nodes, stamp).Failure? <==>
      ExtractAll(nodes[..|nodes| - 1], stamp).Failure? || ExtractItem(nodes[|nodes| - 1], stamp).Failure?
  {
  }

  /** On success, one record per anchored node, in order, each with the shared stamp. */
  lemma {:induction false} ExtractAllRecords(nodes: seq<ItemNode>, stamp: string)
    requires ExtractAll(nodes, stamp).Success?
    ensures var r := ExtractAll(nodes, stamp).value;
      && |r| == |Anchored(nodes)|
      && forall k :: 0 <= k < |r| ==>
           ExtractItem(Anchored(nodes)[k], stamp) == Success(Some(r[k])) && r[k].dataExtracao == stamp
  {
    if nodes != [] {
      var init, last := nodes[..|nodes| - 1], nodes[|nodes| - 1];
      ExtractAllRecords(init, stamp);
      assert Anchored(nodes) == Anchored(init) + (if last.anchor.Some? then [last] else []);
    }
  }

  /** `extrair_itens_lista`: the loop that appends each non-`None` record. */
  method ExtractItems(page: Page, now: Timestamp.DateTime) returns (r: Result<seq<Item>, Fault>)
    requires Timestamp.ValidDateTime(now)
    ensures r == ExtractAll(page.items, Timestamp.Format(now))
  {
    var nodes := page.items;
    var stamp := Timestamp.Format(now);
    var processed: seq<Item> := [];
    var i := 0;
    while i < |nodes|
      invariant 0 <= i <= |nodes|
      invariant ExtractAll(nodes[..i], stamp) == Success(processed)
    {
      assert nodes[..i + 1][..i] == nodes[..i];
      var item := ExtractItem(nodes[i], stamp);
      if item.Failure? {
        assert ExtractAll(nodes[..i + 1], stamp).Failure?;
        PrefixFailure(nodes, stamp, i + 1);
        return Failure(item.error);
      }
      if item.value.Some? {
        processed := processed + [item.value.value];
      }
      i := i + 1;
    }
    assert nodes[..i] == nodes;
    r := Success(processed);
  }

  /** An exception in a prefix is the exception of the whole list. */
  lemma {:induction false} PrefixFailure(nodes: seq<ItemNode>, stamp: string, n: nat)
    requires n <= |nodes| && ExtractAll(nodes[..n], stamp).Failure?
    ensures ExtractAll(nodes, stamp) == ExtractAll(nodes[..n], stamp)
    decreases |nodes| - n
  {
    if n < |nodes| {
      assert nodes[..n + 1][..n] == nodes[..n];
      PrefixFailure(nodes, stamp, n + 1);
    } else {
      assert nodes[..n] == nodes;
    }
  }

  /** What the browser session gave back: the page, or the exception it raised. */
  datatype Fetch = Rendered(page: Page) | DriverFailed(reason: string)

  /**
   * The dictionary `executar_scraping` returns: the listing, an error with an
   * `"error_code"`, or the generic error with only `"error"`.
   */
  datatype ScrapeOutcome =
    | Listing(listName: string, total: nat, items: seq<Item>)
    | Rejected(error: string, errorCode: string)
    | Crashed(error: string)

  const NotFoundCode: string := "WISHLIST_NOT_FOUND"
  const EmptyOrPrivateCode: string := "WISHLIST_EMPTY_OR_PRIVATE"
  const NotFoundMessage: string := "A lista de desejos não foi encontrada ou é privada."
  const EmptyOrPrivateMessage: string :=
    "A lista de desejos pode estar vazia, ser privada ou não foi possível carregá-la corretamente."
  const CrashPrefix: string := "Ocorreu um erro durante o scraping: "

  lemma CodesDiffer()
    ensures NotFoundCode != EmptyOrPrivateCode
  {
    assert |NotFoundCode| != |EmptyOrPrivateCode|;
  }

  /** The error heading's text marks a missing list (the first test is case-sensitive). */
  predicate SaysNotFound(page: Page) {
    page.errorHeading.Some?
    && (Contains(page.errorHeading.value, "não encontrada")
        || Contains(Lower(page.errorHeading.value), "not found"))
  }

  /**
   * The English test ignores case: a heading holding "not found" written in
   * any mix of cases marks the list as missing.
   */
  lemma NotFoundAnyCase(page: Page, before: string, phrase: string, after: string)
    requires page.errorHeading == Some(before + phrase + after)
    requires Lower(phrase) == "not found"
    ensures SaysNotFound(page)
  {
    LowerAppend(before + phrase, after);
    LowerAppend(before, phrase);
    OccursBetween(Lower(before), "not found", Lower(after));
  }

  /** "Not Found" and "NOT FOUND" both lower to "not found". */
  lemma NotFoundCaseVariants()
    ensures Lower("Not Found") == "not found"
    ensures Lower("NOT FOUND") == "not found"
  {
    assert Lower("Not Found")[0] == 'n' && Lower("Not Found")[4] == 'f';
    forall i | 0 <= i < 9 ensures Lower("NOT FOUND")[i] == "not found"[i] {
    }
  }

  /** The Portuguese test is case-sensitive and matches "não encontrada" anywhere in the heading. */
  lemma NaoEncontradaFound(page: Page, before: string, after: string)
    requires page.errorHeading == Some(before + "não encontrada" + after)
    ensures SaysNotFound(page)
  {
    OccursBetween(before, "não encontrada", after);
  }

  /** `str(e)` of the `ValueError` that `float` raises. */
  function FloatErrorMessage(text: string): string {
    "could not convert string to float: '" + text + "'"
  }

  /**
   * The chain of checks in `executar_scraping` once the page is loaded, given
   * what `extrair_itens_lista` produced: not found, empty or private, the
   * listing, or the generic error for an escaping exception.
   */
  function Classify(page: Page, extracted: Result<seq<Item>, Fault>): (r: ScrapeOutcome)
    requires extracted.Failure? ==> extracted.error.ValueError?
    ensures r == Rejected(NotFoundMessage, NotFoundCode) <==> SaysNotFound(page)
    ensures r == Rejected(EmptyOrPrivateMessage, EmptyOrPrivateCode) <==>
      !SaysNotFound(page) && extracted == Success([]) && ListName(page) == NameSentinel
    ensures r.Crashed? <==> !SaysNotFound(page) && extracted.Failure?
    ensures r.Listing? <==>
      !SaysNotFound(page) && extracted.Success? && (extracted.value != [] || ListName(page) != NameSentinel)
    ensures r.Listing? ==> r.listName == ListName(page) && r.items == extracted.value && r.total == |r.items|
  {
    CodesDiffer();
    if SaysNotFound(page) then Rejected(NotFoundMessage, NotFoundCode)
    else if extracted.Failure? then Crashed(CrashPrefix + FloatErrorMessage(extracted.error.text))
    else if ListName(page) == NameSentinel && extracted.value == [] then
      Rejected(EmptyOrPrivateMessage, EmptyOrPrivateCode)
    else Listing(ListName(page), |extracted.value|, extracted.value)
  }

  /**
   * `executar_scraping` after the browser session: a driver exception becomes
   * the generic error; the items are extracted only when the heading does not
   * say the list is missing.
   */
  method Scrape(fetch: Fetch, now: Timestamp.DateTime) returns (r: ScrapeOutcome)
    requires Timestamp.ValidDateTime(now)
    ensures fetch.DriverFailed? ==> r == Crashed(CrashPrefix + fetch.reason)
    ensures fetch.Rendered? ==> r == Classify(fetch.page, ExtractAll(fetch.page.items, Timestamp.Format(now)))
  {
    if fetch.DriverFailed? {
      return Crashed(CrashPrefix + fetch.reason);
    }
    var page := fetch.page;
    if SaysNotFound(page) {
      return Rejected(NotFoundMessage, NotFoundCode);
    }
    var name := ListName(page);
    var items := ExtractItems(page, now);
    if items.Failure? {
      return Crashed(CrashPrefix + FloatErrorMessage(items.error.text));
    }
    if name == NameSentinel && items.value == [] {
      return Rejected(EmptyOrPrivateMessage, EmptyOrPrivateCode);
    }
    r := Listing(name, |items.value|, items.value);
  }
}
