/**
 * `db/models.py`: the `produtos` and `historico_precos` tables, their column
 * constraints as a validity predicate, and the `historico_precos` relationship.
 */
module Models {
  import opened Wrappers
  import opened Price
  import opened Timestamp

  /**
   * A `produtos` row. `nome`, `link_produto` and `link_imagem` are always
   * strings here (the reconciler only ever writes strings); `asin` may be
   * `None` because the reconciler may try to insert one.
   */
  datatype Produto = Produto(id: nat, asin: Option<string>, nome: string, linkProduto: string, linkImagem: string)

  /** A `historico_precos` row; `preco` is nullable. */
  datatype HistoricoPreco = HistoricoPreco(id: nat, preco: Option<Decimal>, dataExtracao: DateTime, produtoId: nat)

  /** The constraint an insert into `produtos` breaks. */
  datatype Violation = NullAsin | DuplicateAsin | DuplicateLink

  predicate HasProduct(ps: seq<Produto>, id: nat) {
    exists i :: 0 <= i < |ps| && ps[i].id == id
  }

  /**
   * `produtos`: ids below the next id and increasing (so unique), `asin` not
   * null and unique, `link_produto` unique.
   */
  predicate ProductsValid(ps: seq<Produto>, nextId: nat) {
    && (forall i :: 0 <= i < |ps| ==> ps[i].asin.Some? && ps[i].id < nextId)
    && (forall i, j :: 0 <= i < j < |ps| ==>
          ps[i].id < ps[j].id && ps[i].asin != ps[j].asin && ps[i].linkProduto != ps[j].linkProduto)
  }

  /** `historico_precos`: ids below the next id and increasing; every row references a product. */
  predicate RowsValid(ps: seq<Produto>, hs: seq<HistoricoPreco>, nextId: nat) {
    && (forall i :: 0 <= i < |hs| ==> hs[i].id < nextId && HasProduct(ps, hs[i].produtoId))
    && (forall i, j :: 0 <= i < j < |hs| ==> hs[i].id < hs[j].id)
  }

  predicate CatalogValid(ps: seq<Produto>, hs: seq<HistoricoPreco>, nextProdutoId: nat, nextHistoricoId: nat) {
    ProductsValid(ps, nextProdutoId) && RowsValid(ps, hs, nextHistoricoId)
  }

  /**
   * In valid tables the primary key and the `unique` ASIN each pick out one
   * product, and every history row's `produto_id` names exactly one product.
   */
  lemma CatalogKeys(ps: seq<Produto>, hs: seq<HistoricoPreco>, nextP: nat, nextH: nat, i: nat, j: nat)
    requires CatalogValid(ps, hs, nextP, nextH) && i < |ps| && j < |ps|
    ensures ps[i].id == ps[j].id ==> i == j
    ensures ps[i].asin == ps[j].asin ==> i == j
    ensures forall k :: 0 <= k < |hs| ==> exists m :: 0 <= m < |ps| && ps[m].id == hs[k].produtoId
  {
    if i < j {
      assert ps[i].id < ps[j].id && ps[i].asin != ps[j].asin;
    } else if j < i {
      assert ps[j].id < ps[i].id && ps[j].asin != ps[i].asin;
    }
    forall k | 0 <= k < |hs| ensures exists m :: 0 <= m < |ps| && ps[m].id == hs[k].produtoId {
      assert HasProduct(ps, hs[k].produtoId);
    }
  }

  /** What the database answers when the new row `p` is flushed into `produtos`. */
  function CheckInsert(ps: seq<Produto>, p: Produto): (r: Option<Violation>)
    ensures r.None? <==>
      p.asin.Some? && forall i :: 0 <= i < |ps| ==> ps[i].asin != p.asin && ps[i].linkProduto != p.linkProduto
    ensures r == Some(NullAsin) <==> p.asin.None?
  {
    if p.asin.None? then Some(NullAsin)
    else if exists i :: 0 <= i < |ps| && ps[i].asin == p.asin then Some(DuplicateAsin)
    else if exists i :: 0 <= i < |ps| && ps[i].linkProduto == p.linkProduto then Some(DuplicateLink)
    else None
  }

  /** An insert the database accepts, with the next id, keeps the table valid. */
  lemma InsertKeepsValid(ps: seq<Produto>, hs: seq<HistoricoPreco>, nextP: nat, nextH: nat, p: Produto)
    requires CatalogValid(ps, hs, nextP, nextH)
    requires p.id == nextP && CheckInsert(ps, p).None?
    ensures CatalogValid(ps + [p], hs, nextP + 1, nextH)
  {
    var ps' := ps + [p];
    forall i | 0 <= i < |hs| ensures HasProduct(ps', hs[i].produtoId) {
      var k :| 0 <= k < |ps| && ps[k].id == hs[i].produtoId;
      assert ps'[k] == ps[k];
    }
  }

  /** Appending a row for an existing product, with the next id, keeps the tables valid. */
  lemma AppendKeepsValid(ps: seq<Produto>, hs: seq<HistoricoPreco>, nextP: nat, nextH: nat, h: HistoricoPreco)
    requires CatalogValid(ps, hs, nextP, nextH)
    requires h.id == nextH && HasProduct(ps, h.produtoId)
    ensures CatalogValid(ps, hs + [h], nextP, nextH + 1)
  {
  }

  /** The `historico_precos` relationship of the product with id `id`: its rows, in table order. */
  function HistoryOf(hs: seq<HistoricoPreco>, id: nat): (r: seq<HistoricoPreco>)
    ensures forall h :: h in r <==> h in hs && h.produtoId == id
  {
    if hs == [] then []
    else
      var init, last := hs[..|hs| - 1], hs[|hs| - 1];
      assert hs == init + [last];
      HistoryOf(init, id) + (if last.produtoId == id then [last] else [])
  }

  /** Appending rows only ever extends each product's history. */
  lemma {:induction false} HistoryOfAppend(a: seq<HistoricoPreco>, b: seq<HistoricoPreco>, id: nat)
    ensures HistoryOf(a + b, id) == HistoryOf(a, id) + HistoryOf(b, id)
    decreases |b|
  {
    if b == [] {
      assert a + b == a;
    } else {
      var init := b[..|b| - 1];
      assert (a + b)[..|a + b| - 1] == a + init;
      HistoryOfAppend(a, init, id);
    }
  }

  /** A single row is in a product's history iff it references that product. */
  lemma HistoryOfOne(h: HistoricoPreco, id: nat)
    ensures HistoryOf([h], id) == (if h.produtoId == id then [h] else [])
  {
    assert [h][..0] == [];
  }

  /** The product with this (non-null) `asin`, if any. */
  function FindByAsin(ps: seq<Produto>, asin: Option<string>): (r: Option<Produto>)
    ensures r.Some? ==> asin.Some? && r.value.asin == asin && r.value in ps
    ensures r.None? ==> asin.None? || forall i :: 0 <= i < |ps| ==> ps[i].asin != asin
  {
    if asin.None? || ps == [] then None
    else if ps[0].asin == asin then Some(ps[0])
    else
      var r := FindByAsin(ps[1..], asin);
      assert forall i :: 1 <= i < |ps| ==> ps[i] == ps[1..][i - 1];
      r
  }
}
