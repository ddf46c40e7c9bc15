/**
 * `src/utils/scraping.py`: the older extractor. It keeps one record per item
 * node and does not filter: a missing anchor, a price element without its
 * inner span, or a price that cleans to nothing raises, and the whole list
 * comprehension fails with it.
 */
module LegacyScraping {
  import opened Wrappers
  import opened Text
  import opened Price
  import opened Dom
  import ScraperCore
  import Timestamp

  /** `extrair_nome_lista`: the raw list-name text, not stripped, or the sentinel. */
  function ListName(page: Page): (r: string)
    ensures page.listName.None? ==> r == NameSentinel
    ensures page.listName.Some? ==> r == page.listName.value
  {
    match page.listName
    case None => NameSentinel
    case Some(t) => t
  }

  /** The newer extractor's list name is this one's, stripped. */
  lemma ListNameStrippedByCore(page: Page)
    ensures ScraperCore.ListName(page) == Strip(ListName(page))
  {
    if page.listName.None? {
      assert NameSentinel[0] == 'N' && NameSentinel[|NameSentinel| - 1] == 'o';
      assert LeadingSpace(NameSentinel) == 0;
      assert TrailingCut(NameSentinel[0..]) == |NameSentinel|;
    }
  }

  /**
   * The price part of `extrair_dados_itens`: no price element gives `None`; a
   * missing inner span raises `AttributeError` (`None.text`); an empty cleaned
   * text raises `TypeError` (`float(None)`); a malformed one `ValueError`.
   */
  function PriceOf(tag: Option<PriceTag>): (r: Result<Option<Decimal>, Fault>)
    ensures r == Success(None) <==> tag.None?
    ensures r == Failure(AttributeError) <==> tag.Some? && tag.value.hiddenText.None?
    ensures r == Failure(TypeError) <==> tag.Some? && tag.value.hiddenText.Some? && Clean(tag.value.hiddenText.value) == []
    ensures r.Failure? && r.error.ValueError? <==>
      tag.Some? && tag.value.hiddenText.Some? && Clean(tag.value.hiddenText.value) != []
      && ToFloat(Clean(tag.value.hiddenText.value)).None?
    ensures r.Success? && r.value.Some? ==>
      tag.Some? && tag.value.hiddenText.Some? && r.value == ToFloat(Clean(tag.value.hiddenText.value))
  {
    match tag
    case None => Success(None)
    case Some(PriceTag(None)) => Failure(AttributeError)
    case Some(PriceTag(Some(text))) =>
      var cleaned := Clean(Strip(text));
      CleanIgnoresStrip(text);
      if cleaned == [] then Failure(TypeError)
      else
        match ToFloat(cleaned)
        case None => Failure(ValueError(CommaToDot(cleaned)))
        case Some(d) => Success(Some(d))
  }

  /** `extrair_dados_itens`: a record, or the exception it raises. */
  function ExtractItem(node: ItemNode, stamp: string): (r: Result<Item, Fault>)
    ensures node.anchor.None? ==> r == Failure(AttributeError)
    ensures r.Success? <==> node.anchor.Some? && PriceOf(node.price).Success?
    ensures node.anchor.Some? && PriceOf(node.price).Failure? ==> r == Failure(PriceOf(node.price).error)
    ensures r.Success? ==> r.value == Record(node, PriceOf(node.price).value, stamp)
  {
    match node.anchor
    case None => Failure(AttributeError)
    case Some(a) =>
      match PriceOf(node.price)
      case Failure(f) => Failure(f)
      case Success(p) => Success(Record(node, p, stamp))
  }

  /**
   * `extrair_itens_lista`: the list comprehension. One record per node, in
   * order, or the exception of the first node that raises.
   */
  function ExtractItems(nodes: seq<ItemNode>, stamp: string): (r: Result<seq<Item>, Fault>)
    ensures r.Success? ==> |r.value| == |nodes|
  {
    if nodes == [] then Success([])
    else
      match ExtractItem(nodes[0], stamp)
      case Failure(f) => Failure(f)
      case Success(item) =>
        match ExtractItems(nodes[1..], stamp)
        case Failure(f) => Failure(f)
        case Success(items) => Success([item] + items)
  }

  /** On success, record `k` is the record of node `k`, for every node. */
  lemma {:induction false} ItemsRecords(nodes: seq<ItemNode>, stamp: string)
    requires ExtractItems(nodes, stamp).Success?
    ensures forall k :: 0 <= k < |nodes| ==> ExtractItem(nodes[k], stamp) == Success(ExtractItems(nodes, stamp).value[k])
  {
    if nodes != [] {
      var rest := nodes[1..];
      var item := ExtractItem(nodes[0], stamp).value;
      assert ExtractItems(rest, stamp).Success?;
      var tail := ExtractItems(rest, stamp).value;
      ItemsRecords(rest, stamp);
      var r := ExtractItems(nodes, stamp).value;
      assert r == [item] + tail;
      forall k | 0 <= k < |nodes| ensures ExtractItem(nodes[k], stamp) == Success(r[k]) {
        if k == 0 {
          assert r[0] == item;
        } else {
          assert nodes[k] == rest[k - 1] && r[k] == tail[k - 1];
        }
      }
    }
  }

  /** The list comprehension completes exactly when no node raises. */
  lemma {:induction false} ItemsSucceed(nodes: seq<ItemNode>, stamp: string)
    ensures ExtractItems(nodes, stamp).Success? <==> forall i :: 0 <= i < |nodes| ==> ExtractItem(nodes[i], stamp).Success?
  {
    if ExtractItems(nodes, stamp).Success? {
      ItemsRecords(nodes, stamp);
    } else {
      FirstFailure(nodes, stamp);
    }
  }

  /** A failing list fails with the exception of its first raising node. */
  lemma {:induction false} FirstFailure(nodes: seq<ItemNode>, stamp: string)
    requires ExtractItems(nodes, stamp).Failure?
    ensures exists i ::
      && 0 <= i < |nodes|
      && ExtractItem(nodes[i], stamp) == Failure(ExtractItems(nodes, stamp).error)
      && SucceedBefore(nodes, i, stamp)
  {
    var f := ExtractItems(nodes, stamp).error;
    if ExtractItem(nodes[0], stamp).Failure? {
      assert ExtractItem(nodes[0], stamp) == Failure(f);
      assert SucceedBefore(nodes, 0, stamp);
    } else {
      var rest := nodes[1..];
      assert ExtractItems(rest, stamp) == Failure(f);
      FirstFailure(rest, stamp);
      var i :| 0 <= i < |rest| && ExtractItem(rest[i], stamp) == Failure(f) && SucceedBefore(rest, i, stamp);
      SucceedBeforeCons(nodes, i, stamp);
      assert ExtractItem(nodes[i + 1], stamp) == Failure(f);
    }
  }

  /** Every node before index `i` is extracted without raising. */
  predicate SucceedBefore(nodes: seq<ItemNode>, i: nat, stamp: string)
    requires i <= |nodes|
  {
    forall j :: 0 <= j < i ==> ExtractItem(nodes[j], stamp).Success?
  }

  lemma SucceedBeforeCons(nodes: seq<ItemNode>, i: nat, stamp: string)
    requires 0 < |nodes| && i < |nodes| && ExtractItem(nodes[0], stamp).Success?
    requires SucceedBefore(nodes[1..], i, stamp)
    ensures SucceedBefore(nodes, i + 1, stamp)
  {
    forall j | 1 <= j < i + 1 ensures ExtractItem(nodes[j], stamp).Success? {
      assert nodes[j] == nodes[1..][j - 1];
    }
  }

  /**
   * `extrair_itens_lista` on a page: the clock is read once, so on success
   * there is one record per node and every record's stamp reads back as that
   * one instant.
   */
  function ExtractPage(page: Page, now: Timestamp.DateTime): (r: Result<seq<Item>, Fault>)
    requires Timestamp.ValidDateTime(now)
    ensures r.Success? ==> |r.value| == |page.items|
    ensures r.Success? ==> forall k :: 0 <= k < |r.value| ==> Timestamp.Parse(r.value[k].dataExtracao) == Some(now)
  {
    var stamp := Timestamp.Format(now);
    var r := ExtractItems(page.items, stamp);
    if r.Failure? then r
    else
      ItemsRecords(page.items, stamp);
      Timestamp.ParseFormat(now);
      assert forall k :: 0 <= k < |r.value| ==> r.value[k].dataExtracao == stamp;
      r
  }

  /** Item by item, the two extractors agree wherever the older one succeeds. */
  lemma ItemAgreesWithCore(node: ItemNode, stamp: string)
    requires ExtractItem(node, stamp).Success?
    ensures ScraperCore.ExtractItem(node, stamp) == Success(Some(ExtractItem(node, stamp).value))
  {
  }

  lemma {:induction false} AllAnchored(nodes: seq<ItemNode>)
    requires forall i :: 0 <= i < |nodes| ==> nodes[i].anchor.Some?
    ensures ScraperCore.Anchored(nodes) == nodes
  {
    if nodes != [] {
      var init := nodes[..|nodes| - 1];
      AllAnchored(init);
      assert init + [nodes[|nodes| - 1]] == nodes;
    }
  }

  /**
   * Where the older extractor succeeds, the newer one returns the very same
   * list: every node had an anchor and every price parsed.
   */
  lemma AgreesWithCore(nodes: seq<ItemNode>, stamp: string)
    requires ExtractItems(nodes, stamp).Success?
    ensures ScraperCore.ExtractAll(nodes, stamp) == ExtractItems(nodes, stamp)
  {
    var items := ExtractItems(nodes, stamp).value;
    ItemsRecords(nodes, stamp);
    forall i | 0 <= i < |nodes| ensures ScraperCore.ExtractItem(nodes[i], stamp) == Success(Some(items[i])) {
      ItemAgreesWithCore(nodes[i], stamp);
    }
    AllAnchored(nodes);
    ScraperCore.ExtractAllFails(nodes, stamp);
    var core := ScraperCore.ExtractAll(nodes, stamp);
    assert core.Success?;
    ScraperCore.ExtractAllRecords(nodes, stamp);
    assert |core.value| == |items|;
    forall k | 0 <= k < |items| ensures core.value[k] == items[k] {
      assert ScraperCore.ExtractItem(nodes[k], stamp) == Success(Some(core.value[k]));
    }
    assert core.value == items;
  }
}
