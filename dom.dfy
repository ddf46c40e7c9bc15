/**
 * The rendered wishlist page, reduced to what the extractors read from it, and
 * the item record they both produce. Each `Option` stands for a `find` that may
 * return `None` or an attribute that may be absent.
 */
module Dom {
  import opened Wrappers
  import opened Price
  import opened Asin

  /** `<a class="a-link-normal">`: its `title` and `href` attributes. */
  datatype Anchor = Anchor(title: Option<string>, href: Option<string>)

  /** The item's first `<img>`: its `src` attribute. */
  datatype Image = Image(src: Option<string>)

  /** `<span class="a-price">`: the text of its inner `<span aria-hidden="true">`, if that exists. */
  datatype PriceTag = PriceTag(hiddenText: Option<string>)

  /** One `<li class="g-item-sortable">`. */
  datatype ItemNode = ItemNode(anchor: Option<Anchor>, image: Option<Image>, price: Option<PriceTag>)

  /**
   * The page: the text of the `h1.a-spacing-base` error heading, the text of
   * `span#profile-list-name`, and the item nodes in page order.
   */
  datatype Page = Page(errorHeading: Option<string>, listName: Option<string>, items: seq<ItemNode>)

  /** The item dictionary both extractors build. */
  datatype Item = Item(nome: string, link: string, imagem: string, asin: Option<string>,
                       preco: Option<Decimal>, dataExtracao: string)

  /** The Python exceptions an extraction can raise; `ValueError` carries the text given to `float`. */
  datatype Fault = AttributeError | TypeError | ValueError(text: string)

  const NameSentinel: string := "Nome não encontrado"
  const ImageSentinel: string := "Imagem não encontrada"
  const LinkPrefix: string := "https://www.amazon.com.br"

  /** `link_element.get('title', 'Nome não encontrado')`. */
  function ItemName(a: Anchor): string {
    a.title.GetOr(NameSentinel)
  }

  /** `f"https://www.amazon.com.br{link_element.get('href', '')}"`. */
  function ItemLink(a: Anchor): string {
    LinkPrefix + a.href.GetOr("")
  }

  /** `img.get('src', 'Imagem não encontrada') if img else 'Imagem não encontrada'`. */
  function ItemImage(img: Option<Image>): string {
    match img
    case None => ImageSentinel
    case Some(i) => i.src.GetOr(ImageSentinel)
  }

  /** The record for an item node with an anchor, given its price and the capture stamp. */
  function Record(node: ItemNode, preco: Option<Decimal>, stamp: string): Item
    requires node.anchor.Some?
  {
    var link := ItemLink(node.anchor.value);
    Item(ItemName(node.anchor.value), link, ItemImage(node.image), ExtractAsin(link), preco, stamp)
  }

  /**
   * The fields of a record: the title or the name sentinel, the store prefix
   * before the href (or nothing), the image source or the image sentinel, the
   * code found in that full link, the price and the stamp.
   */
  lemma RecordFields(node: ItemNode, preco: Option<Decimal>, stamp: string)
    requires node.anchor.Some?
    ensures var r := Record(node, preco, stamp);
      && r.nome == (if node.anchor.value.title.Some? then node.anchor.value.title.value else NameSentinel)
      && r.link == LinkPrefix + (if node.anchor.value.href.Some? then node.anchor.value.href.value else "")
      && r.imagem == (if node.image.Some? && node.image.value.src.Some? then node.image.value.src.value else ImageSentinel)
      && r.asin == ExtractAsin(r.link)
      && r.preco == preco && r.dataExtracao == stamp
  {
    var a := node.anchor.value;
    var link := ItemLink(a);
    assert link == LinkPrefix + (if a.href.Some? then a.href.value else "");
    assert Record(node, preco, stamp) == Item(ItemName(a), link, ItemImage(node.image), ExtractAsin(link), preco, stamp);
  }

  /**
   * An href of the form `/dp/<code>` followed by `/`, `?` or nothing yields that
   * code: the fixed link prefix never holds a match.
   */
  lemma CodeFromProductHref(code: string, rest: string)
    requires |code| == 10 && forall k :: 0 <= k < 10 ==> IsCodeChar(code[k])
    requires rest == [] || rest[0] == '/' || rest[0] == '?'
    ensures ExtractAsin(ItemLink(Anchor(None, Some("/dp/" + code + rest)))) == Some(code)
  {
    var link := ItemLink(Anchor(None, Some("/dp/" + code + rest)));
    var n := |LinkPrefix|;
    assert link == LinkPrefix + "/dp/" + code + rest;
    assert n == 25;
    assert link[n..n + 4] == "/dp/";
    assert link[n + 4..n + 14] == code;
    assert MatchAt(link, n);
    forall j | 0 <= j < n ensures !MatchAt(link, j) {
      assert link[j] == LinkPrefix[j];
      assert link[j + 1] == (LinkPrefix + "/")[j + 1];
    }
    var r := ExtractAsin(link);
    var i :| MatchAt(link, i) && r.value == link[i + 4..i + 14] && forall j :: 0 <= j < i ==> !MatchAt(link, j);
    assert i == n;
  }
}
