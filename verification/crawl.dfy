/** The crawl of `fetch_data`: for each category URL in list order, every
    `product-listing-right` block of the page yields one row of the ADAFRUIT
    table. `PageLoop` and `CrawlLoop` follow the code step by step, with the
    loop variables (`product_id`, `product_name`, `product_price`,
    `product_qty`, `product_stock`) carried from block to block and reset
    after each insert and, except the price and the quantity, at the start of
    each page. `BlockRow`, `PageRows` and `ExpectedRows` say the same thing
    without state: each row is a function of its own block and its page's
    category. The lemmas connect the two: nothing a block sets reaches the
    next one, except that `product_qty` is unbound until the first block
    that has a stock div. */
module Crawl {
  import opened Results
  import opened Text
  import opened Categories
  import opened Price
  import opened Stock

  /** The `ec_click_product` hyperlink of a block: its `data-pid` and `data-name` attributes. */
  datatype Anchor = Anchor(pid: string, dataName: string)

  /** A `product-listing-right` div, as what the crawler looks up in it: the product link,
      the texts of the `normal-price` and `red-sale-price` spans, and the text of the
      `stock` div, each absent when the element is missing. */
  datatype Block = Block(anchor: Option<Anchor>, listPrice: Option<string>, salePrice: Option<string>,
                         stock: Option<string>)

  /** `product_id`: the integer 0 until a product link supplies its `data-pid` text. */
  datatype ProductId = DefaultId | DataPid(text: string)

  /** One row of the ADAFRUIT table. `category` is `None` (SQL NULL) for a page whose URL
      has no name. */
  datatype Row = Row(category: Option<string>, id: ProductId, name: string, price: real, qty: nat,
                     stock: StockStatus)

  /** The loop variables of `fetch_data`; `None` is a variable not bound yet. */
  datatype Locals = Locals(id: ProductId, name: string, price: Option<real>, qty: Option<nat>,
                           stock: StockStatus)

  /** The values the variables are reset to after each insert. */
  const Cleared: Locals := Locals(DefaultId, "", Some(0.0), Some(0), Unset)

  /** Before the first page: `product_price` and `product_qty` are unbound. The other three
      are bound at the start of every page before any use, so their values here never matter. */
  const Unassigned: Locals := Locals(DefaultId, "", None, None, Unset)

  /** The assignments at the start of each page; the price and the quantity keep their values. */
  function PageStart(l: Locals): (r: Locals)
    ensures r.id == DefaultId && r.name == "" && r.stock == Unset
    ensures r.price == l.price && r.qty == l.qty
  {
    l.(id := DefaultId, name := "", stock := Unset)
  }

  /** The body of the block loop: the product link, then the price (which may raise), then
      the stock div, then the `print` of the row and the insert; the `print` is the first to
      read `product_qty`, and so raises `UnboundLocalError` while it is unbound; then the
      resets. */
  function Step(l: Locals, b: Block, category: Option<string>, strip: string -> string)
    : (r: Result<(Row, Locals)>)
    ensures BlockPrice(b.listPrice, b.salePrice).Failure? ==> r == Failure(BlockPrice(b.listPrice, b.salePrice).error)
    ensures r.Success? ==> r.value.1 == Cleared
    ensures r.Success? ==> r.value.0.category == category && r.value.0.price == BlockPrice(b.listPrice, b.salePrice).value
    ensures r == Failure(UnboundLocalError) <==>
      BlockPrice(b.listPrice, b.salePrice).Success? && b.stock.None? && l.qty.None?
  {
    var l1 := match b.anchor
      case None => l
      case Some(a) => l.(id := DataPid(a.pid), name := strip(a.dataName));
    var price :- BlockPrice(b.listPrice, b.salePrice);
    var l2 := l1.(price := Some(price));
    var l3 := match b.stock
      case None => l2
      case Some(line) => l2.(qty := Some(Quantity(line)), stock := Classify(l2.stock, line));
    if l3.qty.None? then Failure(UnboundLocalError)
    else Success((Row(category, l3.id, l3.name, l3.price.value, l3.qty.value, l3.stock), Cleared))
  }

  /** The loop over the blocks of one page: the rows in block order and the variables left
      after the last block, or the first exception. */
  function PageLoop(blocks: seq<Block>, category: Option<string>, strip: string -> string, l: Locals)
    : (r: Result<(seq<Row>, Locals)>)
    ensures r.Success? ==> |r.value.0| == |blocks|
    ensures r.Success? && |blocks| > 0 ==> r.value.1 == Cleared
    ensures r.Success? && |blocks| == 0 ==> r.value.1 == l
    decreases |blocks|
  {
    if |blocks| == 0 then Success(([], l))
    else
      var first :- Step(l, blocks[0], category, strip);
      var rest :- PageLoop(blocks[1..], category, strip, first.1);
      Success(([first.0] + rest.0, rest.1))
  }

  /** The loop over the category URLs. Each page's category is the dictionary lookup of its
      URL (`dict.get`, so `None` when absent). */
  function CrawlLoop(urls: seq<string>, names: map<string, string>, pages: string -> seq<Block>,
                     strip: string -> string, l: Locals): (r: Result<seq<Row>>)
    decreases |urls|
  {
    if |urls| == 0 then Success([])
    else
      var page :- PageLoop(pages(urls[0]), Get(names, urls[0]), strip, PageStart(l));
      var rest :- CrawlLoop(urls[1..], names, pages, strip, page.1);
      Success(page.0 + rest)
  }

  /** The rows `fetch_data` inserts, from the links of the master page, the blocks of each
      category page and the tag stripping applied to `data-name`. */
  function Download(links: seq<Link>, pages: string -> seq<Block>, strip: string -> string)
    : Result<seq<Row>>
  {
    CrawlLoop(CategoryUrls(links), CategoryNames(links), pages, strip, Unassigned)
  }

  /** The ADAFRUIT table after `fetch_data`. It is dropped and recreated outside any
      transaction, so it starts empty whatever an earlier run left; the inserts are
      committed only when the crawl finishes, so an exception leaves it empty. In terms of the
      reference: empty when the first block reads the quantity unbound or some price does not
      parse, and otherwise the reference rows of every placed block. */
  function Table(links: seq<Link>, pages: string -> seq<Block>, strip: string -> string)
    : (rows: seq<Row>)
    ensures var placed := Placements(CategoryUrls(links), CategoryNames(links), pages);
            rows == if QtyUnbound(placed) || !AllPricesParse(placed) then []
                    else ExpectedRows(CategoryUrls(links), CategoryNames(links), pages, strip).value
    ensures var placed := Placements(CategoryUrls(links), CategoryNames(links), pages);
            !QtyUnbound(placed) && AllPricesParse(placed) ==> RowsOf(rows, placed, strip)
  {
    DownloadMatchesReference(links, pages, strip);
    match Download(links, pages, strip)
    case Success(rows) => rows
    case Failure(_) => []
  }

  // ---------------------------------------------------------------------------------------
  // The stateless reference

  /** The row of one block, from that block alone. */
  function BlockRow(b: Block, category: Option<string>, strip: string -> string): (r: Result<Row>)
    ensures r.Failure? <==> !PriceParses(b)
    ensures r.Failure? ==> r.error == BlockPrice(b.listPrice, b.salePrice).error
    ensures r.Success? ==> r.value.category == category && r.value.price == BlockPrice(b.listPrice, b.salePrice).value
  {
    var price :- BlockPrice(b.listPrice, b.salePrice);
    BlockRowWith(b, category, strip, price)
  }

  /** The fields of a block's row that do not come from its price: defaults for a missing
      product link or stock div, and otherwise what the stock text says. */
  lemma BlockRowFields(b: Block, category: Option<string>, strip: string -> string)
    requires PriceParses(b)
    ensures var row := BlockRow(b, category, strip).value;
            && (b.anchor.None? ==> row.id == DefaultId && row.name == "")
            && (b.anchor.Some? ==> row.id == DataPid(b.anchor.value.pid) && row.name == strip(b.anchor.value.dataName))
            && (b.stock.None? ==> row.qty == 0 && row.stock == Unset)
            && (b.stock.Some? ==> row.qty == Quantity(b.stock.value))
            && (b.stock.Some? ==> row.stock == LastMatch(Checks, b.stock.value, Unset))
            && (b.stock.Some? ==>
                  (row.stock == Unset <==>
                     !Contains(b.stock.value, "IN STOCK") && !Contains(b.stock.value, "OUT OF STOCK") &&
                     !Contains(b.stock.value, "DISCONTINUED") && !Contains(b.stock.value, "COMING SOON")))
  {
    if b.stock.Some? {
      ClassifyIff(b.stock.value);
      ClassifyIsLastMatch(Unset, b.stock.value);
    }
  }

  function BlockRowWith(b: Block, category: Option<string>, strip: string -> string, price: real)
    : Result<Row>
  {
    Success(Row(category,
      if b.anchor.Some? then DataPid(b.anchor.value.pid) else DefaultId,
      if b.anchor.Some? then strip(b.anchor.value.dataName) else "",
      price,
      if b.stock.Some? then Quantity(b.stock.value) else 0,
      if b.stock.Some? then Classify(Unset, b.stock.value) else Unset))
  }

  /** The block of a product listing with nothing in it. */
  const EmptyBlock: Block := Block(None, None, None, None)

  /** A block with no product link, price or stock div gives the all-defaults row. */
  lemma EmptyBlockRow(category: Option<string>, strip: string -> string)
    ensures BlockRow(EmptyBlock, category, strip) == Success(Row(category, DefaultId, "", 0.0, 0, Unset))
  {
  }

  /** The price of the block parses, which is all its row needs. */
  predicate PriceParses(b: Block) {
    BlockPrice(b.listPrice, b.salePrice).Success?
  }

  /** A block paired with the category of the page it is on. */
  type Placed = (Block, Option<string>)

  /** The blocks of one page, each paired with the page's category. */
  function OnPage(blocks: seq<Block>, category: Option<string>): (r: seq<Placed>)
    ensures |r| == |blocks|
    ensures forall i :: 0 <= i < |blocks| ==> r[i] == (blocks[i], category)
  {
    seq(|blocks|, i requires 0 <= i < |blocks| => (blocks[i], category))
  }

  /** The blocks of all category pages in URL order, each with its page's category. */
  function Placements(urls: seq<string>, names: map<string, string>, pages: string -> seq<Block>)
    : (r: seq<Placed>)
    ensures |urls| > 0 ==> |r| >= |pages(urls[0])|
    decreases |urls|
  {
    if |urls| == 0 then []
    else OnPage(pages(urls[0]), Get(names, urls[0])) + Placements(urls[1..], names, pages)
  }

  /** Every placed block comes from one of the pages, with that page's category. */
  lemma {:induction false} PlacementsOrigin(urls: seq<string>, names: map<string, string>,
                                            pages: string -> seq<Block>)
    ensures forall i :: 0 <= i < |Placements(urls, names, pages)| ==>
      exists k :: 0 <= k < |urls| && Placements(urls, names, pages)[i].0 in pages(urls[k]) &&
                  Placements(urls, names, pages)[i].1 == Get(names, urls[k])
    decreases |urls|
  {
    if |urls| > 0 {
      var here := OnPage(pages(urls[0]), Get(names, urls[0]));
      var later := Placements(urls[1..], names, pages);
      var placed := Placements(urls, names, pages);
      PlacementsOrigin(urls[1..], names, pages);
      forall i | 0 <= i < |placed|
        ensures exists k :: 0 <= k < |urls| && placed[i].0 in pages(urls[k]) && placed[i].1 == Get(names, urls[k])
      {
        if i < |here| {
          assert placed[i] == here[i] == (pages(urls[0])[i], Get(names, urls[0]));
        } else {
          var j := i - |here|;
          assert placed[i] == later[j];
          assert 0 <= j < |later|;
          var k :| 0 <= k < |urls[1..]| && later[j].0 in pages(urls[1..][k]) && later[j].1 == Get(names, urls[1..][k]);
          assert urls[1..][k] == urls[k + 1];
        }
      }
      assert placed == Placements(urls, names, pages);
    } else {
      assert Placements(urls, names, pages) == [];
    }
  }

  /** The row of a placed block. */
  function RowOf(strip: string -> string): (f: Placed -> Result<Row>)
    ensures forall t :: f(t) == BlockRow(t.0, t.1, strip)
  {
    (t: Placed) => BlockRow(t.0, t.1, strip)
  }

  /** The rows of one page: one per block, each its block's row, or the error of the first
      block whose price does not parse. */
  function PageRows(blocks: seq<Block>, category: Option<string>, strip: string -> string)
    : (r: Result<seq<Row>>)
    ensures r.Success? <==> forall i :: 0 <= i < |blocks| ==> PriceParses(blocks[i])
    ensures r.Success? ==> |r.value| == |blocks|
    ensures r.Success? ==> forall i :: 0 <= i < |blocks| ==> r.value[i] == BlockRow(blocks[i], category, strip).value
    ensures r.Failure? ==>
      exists i :: 0 <= i < |blocks| && !PriceParses(blocks[i]) && r.error == BlockPrice(blocks[i].listPrice, blocks[i].salePrice).error &&
                  forall j :: 0 <= j < i ==> PriceParses(blocks[j])
  {
    MapAll(OnPage(blocks, category), RowOf(strip))
  }

  /** Every placed block's price parses. */
  predicate AllPricesParse(placed: seq<Placed>) {
    forall i :: 0 <= i < |placed| ==> PriceParses(placed[i].0)
  }

  /** `rows` are the rows of the placed blocks, one for one and in order. */
  predicate RowsOf(rows: seq<Row>, placed: seq<Placed>, strip: string -> string) {
    |rows| == |placed| && forall i :: 0 <= i < |placed| ==> BlockRow(placed[i].0, placed[i].1, strip) == Success(rows[i])
  }

  /** The rows of the whole crawl: one per block of every category page, in URL order and
      block order, each its block's row with its page's category; or the error of the first
      block whose price does not parse. */
  function ExpectedRows(urls: seq<string>, names: map<string, string>, pages: string -> seq<Block>,
                        strip: string -> string): (r: Result<seq<Row>>)
    ensures r.Success? <==> AllPricesParse(Placements(urls, names, pages))
    ensures r.Success? ==> RowsOf(r.value, Placements(urls, names, pages), strip)
  {
    PlacedRows(Placements(urls, names, pages), strip);
    MapAll(Placements(urls, names, pages), RowOf(strip))
  }

  /** The rows of placed blocks: all of them exactly when every price parses, each the row
      of its block. */
  lemma PlacedRows(placed: seq<Placed>, strip: string -> string)
    ensures MapAll(placed, RowOf(strip)).Success? <==> AllPricesParse(placed)
    ensures MapAll(placed, RowOf(strip)).Success? ==> RowsOf(MapAll(placed, RowOf(strip)).value, placed, strip)
  {
    var f := RowOf(strip);
    assert forall i :: 0 <= i < |placed| ==> (f(placed[i]).Success? <==> PriceParses(placed[i].0));
  }

  /** The rows of a page are its first block's row followed by the rows of the others. */
  lemma PageRowsCons(blocks: seq<Block>, category: Option<string>, strip: string -> string)
    requires |blocks| > 0
    ensures var first := BlockRow(blocks[0], category, strip);
            var rest := PageRows(blocks[1..], category, strip);
            PageRows(blocks, category, strip) ==
              if first.Failure? then Failure(first.error)
              else if rest.Failure? then Failure(rest.error)
              else Success([first.value] + rest.value)
  {
    var placed := OnPage(blocks, category);
    assert placed[0] == (blocks[0], category);
    assert placed[1..] == OnPage(blocks[1..], category);
  }

  /** `product_qty` is read unbound: the first block of the whole crawl has a price that
      parses and no stock div. */
  predicate QtyUnbound(placed: seq<Placed>) {
    |placed| > 0 && PriceParses(placed[0].0) && placed[0].0.stock.None?
  }

  // ---------------------------------------------------------------------------------------
  // The literal loops agree with the reference

  /** A result of the page reference paired with the variables the loop leaves. */
  function WithLocals(e: Result<seq<Row>>, l: Locals): (r: Result<(seq<Row>, Locals)>)
    ensures r.Success? <==> e.Success?
  {
    match e
    case Success(rows) => Success((rows, l))
    case Failure(err) => Failure(err)
  }

  /** At the start of a block the variables matter only through `product_qty`: when the
      product fields hold their defaults and the quantity is 0 or about to be assigned, a
      step inserts exactly the reference row of the block and clears the variables. */
  lemma StepAgrees(l: Locals, b: Block, category: Option<string>, strip: string -> string)
    requires l.id == DefaultId && l.name == "" && l.stock == Unset
    requires l.qty == Some(0) || b.stock.Some?
    ensures match BlockRow(b, category, strip)
      case Failure(e) => Step(l, b, category, strip) == Failure(e)
      case Success(row) => Step(l, b, category, strip) == Success((row, Cleared))
  {
    if b.stock.Some? {
      ClassifyIff(b.stock.value);
      ClassifyIsLastMatch(Unset, b.stock.value);
    }
  }

  /** From cleared variables, one page's loop inserts the reference rows of its blocks. */
  lemma {:induction false} PageLoopCleared(blocks: seq<Block>, category: Option<string>,
                                           strip: string -> string)
    ensures PageLoop(blocks, category, strip, Cleared) == WithLocals(PageRows(blocks, category, strip), Cleared)
    decreases |blocks|
  {
    if |blocks| > 0 {
      PageRowsCons(blocks, category, strip);
      StepAgrees(Cleared, blocks[0], category, strip);
      PageLoopCleared(blocks[1..], category, strip);
    }
  }

  /** The first page that has blocks, entered with `product_qty` unbound: it raises
      `UnboundLocalError` when its first block has a parsing price and no stock div, and
      otherwise inserts the reference rows. */
  lemma PageLoopUnassigned(blocks: seq<Block>, category: Option<string>, strip: string -> string)
    requires |blocks| > 0
    ensures PageLoop(blocks, category, strip, Unassigned) ==
      if QtyUnbound(OnPage(blocks, category)) then Failure(UnboundLocalError)
      else WithLocals(PageRows(blocks, category, strip), Cleared)
  {
    assert OnPage(blocks, category)[0].0 == blocks[0];
    if !QtyUnbound(OnPage(blocks, category)) {
      PageRowsCons(blocks, category, strip);
      if blocks[0].stock.Some? {
        StepAgrees(Unassigned, blocks[0], category, strip);
      }
      PageLoopCleared(blocks[1..], category, strip);
    }
  }

  /** From cleared variables, the crawl inserts the reference rows. */
  lemma {:induction false} CrawlLoopCleared(urls: seq<string>, names: map<string, string>,
                                            pages: string -> seq<Block>, strip: string -> string)
    ensures CrawlLoop(urls, names, pages, strip, Cleared) == ExpectedRows(urls, names, pages, strip)
    decreases |urls|
  {
    if |urls| > 0 {
      MapAllAppend(OnPage(pages(urls[0]), Get(names, urls[0])), Placements(urls[1..], names, pages), RowOf(strip));
      PageLoopCleared(pages(urls[0]), Get(names, urls[0]), strip);
      CrawlLoopCleared(urls[1..], names, pages, strip);
    }
  }

  /** The crawl from its start: `UnboundLocalError` when the first block of the whole crawl
      has a parsing price and no stock div, and otherwise the reference rows. No other value
      set for one block reaches another. */
  lemma {:induction false} CrawlLoopUnassigned(urls: seq<string>, names: map<string, string>,
                                               pages: string -> seq<Block>, strip: string -> string)
    ensures CrawlLoop(urls, names, pages, strip, Unassigned) ==
      if QtyUnbound(Placements(urls, names, pages)) then Failure(UnboundLocalError)
      else ExpectedRows(urls, names, pages, strip)
    decreases |urls|
  {
    if |urls| > 0 {
      var blocks := pages(urls[0]);
      var here := OnPage(blocks, Get(names, urls[0]));
      var later := Placements(urls[1..], names, pages);
      MapAllAppend(here, later, RowOf(strip));
      if |blocks| == 0 {
        assert Placements(urls, names, pages) == later;
        CrawlLoopUnassigned(urls[1..], names, pages, strip);
      } else {
        assert Placements(urls, names, pages)[0] == here[0];
        PageLoopUnassigned(blocks, Get(names, urls[0]), strip);
        CrawlLoopCleared(urls[1..], names, pages, strip);
      }
    }
  }

  /** What `fetch_data` inserts is the reference: the rows of every block of every category
      page in URL order, each from its own block and its page's category, unless the first
      block of the crawl reads `product_qty` unbound or some price does not parse. */
  lemma DownloadMatchesReference(links: seq<Link>, pages: string -> seq<Block>, strip: string -> string)
    ensures Download(links, pages, strip) ==
      if QtyUnbound(Placements(CategoryUrls(links), CategoryNames(links), pages)) then Failure(UnboundLocalError)
      else ExpectedRows(CategoryUrls(links), CategoryNames(links), pages, strip)
  {
    CrawlLoopUnassigned(CategoryUrls(links), CategoryNames(links), pages, strip);
  }
}
