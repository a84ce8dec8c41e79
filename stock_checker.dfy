/**
 * The stock price checker's like counter (`stockchecker-project/routes/api.js`):
 * the IPv4 anonymiser, the in-memory `stocks` array of records found or
 * created by upper-cased symbol with likes counted once per anonymised
 * address, and the GET /api/stock-prices route with its `rel_likes`.
 *
 * The quote service is an oracle from the symbol as requested to a price,
 * or to nothing when the lookup fails.
 */
module StockChecker {
  import opened Wrappers
  import opened Text

  // ---------------------------------------------------------------------
  // anonymizeIP
  // ---------------------------------------------------------------------

  /** `anonymizeIP`: the empty address becomes `0.0.0.0`; an address of four dot-separated
      parts keeps the first two and zeroes the last two; anything else is kept as it is. */
  function AnonymizeIp(ip: string): (r: string)
    ensures r != ""
    ensures ip == "" ==> Split(r, '.') == ["0", "0", "0", "0"]
    ensures ip != "" && |Split(ip, '.')| == 4 ==>
      var parts := Split(ip, '.');
      Split(r, '.') == [parts[0], parts[1], "0", "0"]
    ensures ip != "" && |Split(ip, '.')| != 4 ==> r == ip
  {
    if ip == "" then
      ZeroAddressParts();
      "0.0.0.0"
    else
      var parts := Split(ip, '.');
      if |parts| == 4 then
        TwoPartsThenZeros(parts[0], parts[1]);
        parts[0] + "." + parts[1] + ".0.0"
      else ip
  }

  /** `0.0.0.0` splits into four zeros. */
  lemma ZeroAddressParts()
    ensures Split("0.0.0.0", '.') == ["0", "0", "0", "0"]
  {
    var zeros := ["0", "0", "0", "0"];
    assert Join(zeros, '.') == "0.0.0.0" by {
      assert Join(zeros[3..], '.') == "0";
      assert Join(zeros[2..], '.') == "0" + "." + "0";
      assert Join(zeros[1..], '.') == "0" + "." + ("0" + "." + "0");
    }
    SplitJoin(zeros, '.');
  }

  /** Two dot-free parts followed by `.0.0` split back into those parts and two zeros. */
  lemma TwoPartsThenZeros(p0: string, p1: string)
    requires '.' !in p0 && '.' !in p1
    ensures Split(p0 + "." + p1 + ".0.0", '.') == [p0, p1, "0", "0"]
  {
    var out := [p0, p1, "0", "0"];
    assert Join(out, '.') == p0 + "." + p1 + ".0.0" by {
      assert Join(out[3..], '.') == "0";
      assert Join(out[2..], '.') == "0" + "." + "0";
      assert Join(out[1..], '.') == p1 + "." + ("0" + "." + "0");
    }
    SplitJoin(out, '.');
  }

  /** Anonymising an anonymised address changes nothing. */
  lemma AnonymizeIdempotent(ip: string)
    ensures AnonymizeIp(AnonymizeIp(ip)) == AnonymizeIp(ip)
  {
  }

  /** The address the route anonymises: `req.ip || req.connection.remoteAddress || '127.0.0.1'`. */
  function ClientAddress(reqIp: Option<string>, remoteAddress: Option<string>): (a: string)
    ensures a != ""
  {
    if reqIp.Some? && reqIp.value != "" then reqIp.value
    else if remoteAddress.Some? && remoteAddress.value != "" then remoteAddress.value
    else "127.0.0.1"
  }

  // ---------------------------------------------------------------------
  // Records and likes
  // ---------------------------------------------------------------------

  datatype Stock = Stock(symbol: string, likes: int, ips: seq<string>)

  ghost predicate NoDuplicates(s: seq<string>) {
    forall i, j :: 0 <= i < j < |s| ==> s[i] != s[j]
  }

  /** A record counts each address that liked it once. */
  ghost predicate Consistent(s: Stock) {
    s.likes == |s.ips| && NoDuplicates(s.ips)
  }

  /** The record after a request: one more like, from a new address, only when `like` is
      the string `true`. */
  function Liked(s: Stock, ip: string, like: Option<string>): (r: Stock)
    ensures r.symbol == s.symbol
    ensures like == Some("true") && ip !in s.ips ==> r.likes == s.likes + 1 && r.ips == s.ips + [ip]
    ensures !(like == Some("true") && ip !in s.ips) ==> r == s
  {
    if like == Some("true") && ip !in s.ips then s.(likes := s.likes + 1, ips := s.ips + [ip]) else s
  }

  /** Liking keeps a record consistent, records the address, and a repeated like from the
      same address counts once. */
  lemma LikedOncePerAddress(s: Stock, ip: string, like: Option<string>)
    requires Consistent(s)
    ensures Consistent(Liked(s, ip, like))
    ensures like == Some("true") ==> ip in Liked(s, ip, like).ips
    ensures Liked(Liked(s, ip, like), ip, like) == Liked(s, ip, like)
  {
    var r := Liked(s, ip, like);
    if like == Some("true") && ip !in s.ips {
      assert r.ips[|s.ips|] == ip;
      forall i, j | 0 <= i < j < |r.ips| ensures r.ips[i] != r.ips[j] {
        if j == |s.ips| {
          assert r.ips[i] == s.ips[i];
        }
      }
    }
  }

  /** `stocks.find(s => s.symbol === symbol)`. */
  function FindStock(stocks: seq<Stock>, symbol: string): (k: Option<nat>)
    ensures k.Some? ==> k.value < |stocks| && stocks[k.value].symbol == symbol
    ensures k.None? ==> forall j :: 0 <= j < |stocks| ==> stocks[j].symbol != symbol
    decreases |stocks|
  {
    if |stocks| == 0 then None
    else if stocks[0].symbol == symbol then Some(0)
    else match FindStock(stocks[1..], symbol)
      case None => None
      case Some(k) => Some(k + 1)
  }

  /** The records after `getStockData(symbol, ip, like)`: the record of the upper-cased
      symbol, created with no likes when missing, gets the like; no other record changes. */
  function Recorded(stocks: seq<Stock>, symbol: string, ip: string, like: Option<string>): (r: seq<Stock>)
    ensures |r| >= |stocks| && forall i :: 0 <= i < |stocks| ==> r[i].symbol == stocks[i].symbol
    ensures match FindStock(stocks, Upper(symbol))
      case Some(j) => |r| == |stocks| && r[j] == Liked(stocks[j], ip, like)
        && forall i :: 0 <= i < |stocks| && i != j ==> r[i] == stocks[i]
      case None => |r| == |stocks| + 1 && r[..|stocks|] == stocks && r[|stocks|] == Liked(Stock(Upper(symbol), 0, []), ip, like)
  {
    match FindStock(stocks, Upper(symbol))
    case Some(j) => stocks[j := Liked(stocks[j], ip, like)]
    case None =>
      var r := stocks + [Liked(Stock(Upper(symbol), 0, []), ip, like)];
      assert r[..|stocks|] == stocks;
      r
  }

  /** The store invariant: one record per symbol, every symbol upper-cased, every record
      consistent. */
  ghost predicate StoreOk(stocks: seq<Stock>) {
    && (forall i, j :: 0 <= i < j < |stocks| ==> stocks[i].symbol != stocks[j].symbol)
    && (forall i :: 0 <= i < |stocks| ==> stocks[i].symbol == Upper(stocks[i].symbol) && Consistent(stocks[i]))
  }

  /** `getStockData` keeps the store invariant, keeps at most one record per upper-cased
      symbol (so `msft` and `MSFT` share one), and raises that record's likes by at most one. */
  lemma RecordedKeepsStore(stocks: seq<Stock>, symbol: string, ip: string, like: Option<string>)
    requires StoreOk(stocks)
    ensures var r := Recorded(stocks, symbol, ip, like);
      && StoreOk(r)
      && FindStock(r, Upper(symbol)).Some?
      && var k := FindStock(r, Upper(symbol)).value;
      && r[k].likes <= (if FindStock(stocks, Upper(symbol)).Some? then stocks[k].likes else 0) + 1
      && (like != Some("true") ==> r[k].likes == (if FindStock(stocks, Upper(symbol)).Some? then stocks[k].likes else 0))
  {
    var r := Recorded(stocks, symbol, ip, like);
    UpperIdempotent(symbol);
    match FindStock(stocks, Upper(symbol))
    case Some(j) => {
      LikedOncePerAddress(stocks[j], ip, like);
      FindStockUnique(r, j);
    }
    case None => {
      var created := Stock(Upper(symbol), 0, []);
      LikedOncePerAddress(created, ip, like);
      assert r == stocks + [Liked(created, ip, like)] by {
        assert r == r[..|stocks|] + r[|stocks|..];
      }
      FindStockUnique(r, |stocks|);
    }
  }

  // ---------------------------------------------------------------------
  // The route
  // ---------------------------------------------------------------------

  /** The `stock` query parameter: absent, one value, or repeated. */
  datatype StockQuery = NoStock | One(symbol: string) | Many(symbols: seq<string>)

  datatype StockData = StockData(stock: string, price: real, likes: int)

  datatype RelativeData = RelativeData(stock: string, price: real, relLikes: int)

  datatype StockResponse =
    | Single(data: StockData)
    | Pair(first: RelativeData, second: RelativeData)
    | Failure(status: nat, error: string)   // res.status(status).json({ error })

  class StockStore {
    var stocks: seq<Stock>

    ghost predicate Valid()
      reads this
    {
      StoreOk(stocks)
    }

    constructor ()
      ensures Valid() && stocks == []
    {
      stocks := [];
    }

    /** `getStockData`: find the record of the upper-cased symbol, creating it with no likes
        when there is none, and apply the like. Returns the record's position. */
    method GetStockData(symbol: string, ip: string, like: Option<string>) returns (k: nat)
      requires Valid()
      modifies this
      ensures Valid()
      ensures stocks == Recorded(old(stocks), symbol, ip, like)
      ensures |stocks| >= |old(stocks)| && forall i :: 0 <= i < |old(stocks)| ==> stocks[i].symbol == old(stocks)[i].symbol
      ensures k < |stocks| && stocks[k].symbol == Upper(symbol)
      ensures FindStock(old(stocks), Upper(symbol)).Some? ==> k == FindStock(old(stocks), Upper(symbol)).value
      ensures FindStock(old(stocks), Upper(symbol)).None? ==> k == |old(stocks)|
    {
      RecordedKeepsStore(stocks, symbol, ip, like);
      var symbolUpper := Upper(symbol);
      UpperIdempotent(symbol);
      var found := FindStock(stocks, symbolUpper);
      var stock: Stock;
      if found.None? {
        stock := Stock(symbolUpper, 0, []);
        k := |stocks|;
        stocks := stocks + [stock];
      } else {
        k := found.value;
        stock := stocks[k];
      }
      LikedOncePerAddress(stock, ip, like);
      stocks := stocks[k := Liked(stock, ip, like)];
    }

    /** GET /api/stock-prices. Every failure is answered before any record is touched. */
    method GetStockPrices(stock: StockQuery, like: Option<string>, reqIp: Option<string>,
                          remoteAddress: Option<string>, quote: string -> Option<real>)
      returns (res: StockResponse)
      requires Valid()
      modifies this
      ensures Valid()
      ensures stock == NoStock || stock == One("") ==>
        res == Failure(400, "Stock symbol is required") && stocks == old(stocks)
      ensures stock.Many? && |stock.symbols| != 2 ==>
        res == Failure(400, "Invalid stock parameter") && stocks == old(stocks)
      ensures stock.One? && stock.symbol != "" && quote(stock.symbol).None? ==>
        res == Failure(500, "Stock not found") && stocks == old(stocks)
      ensures stock.Many? && |stock.symbols| == 2 && (quote(stock.symbols[0]).None? || quote(stock.symbols[1]).None?) ==>
        res == Failure(500, "Stock not found") && stocks == old(stocks)
      ensures stock.One? && stock.symbol != "" && quote(stock.symbol).Some? ==>
        var ip := AnonymizeIp(ClientAddress(reqIp, remoteAddress));
        var k := FindStock(stocks, Upper(stock.symbol));
        && stocks == Recorded(old(stocks), stock.symbol, ip, like)
        && k.Some?
        && res == Single(StockData(Upper(stock.symbol), quote(stock.symbol).value, stocks[k.value].likes))
      ensures res.Pair? ==>
        && res.first.relLikes == -res.second.relLikes
        && res.first.stock == Upper(stock.symbols[0]) && res.second.stock == Upper(stock.symbols[1])
        && var k0 := FindStock(stocks, res.first.stock); var k1 := FindStock(stocks, res.second.stock);
        && k0.Some? && k1.Some?
        && res.first.relLikes == stocks[k0.value].likes - stocks[k1.value].likes
      ensures stock.Many? && |stock.symbols| == 2 && quote(stock.symbols[0]).Some? && quote(stock.symbols[1]).Some? ==>
        var ip := AnonymizeIp(ClientAddress(reqIp, remoteAddress));
        && res.Pair?
        && res.first.price == quote(stock.symbols[0]).value && res.second.price == quote(stock.symbols[1]).value
        && stocks == Recorded(Recorded(old(stocks), stock.symbols[0], ip, like), stock.symbols[1], ip, like)
      ensures res.Pair? && Upper(stock.symbols[0]) == Upper(stock.symbols[1]) ==>
        res.first.relLikes == 0 && res.second.relLikes == 0
      ensures |stocks| >= |old(stocks)|
      ensures forall j :: 0 <= j < |old(stocks)| ==> stocks[j].symbol == old(stocks)[j].symbol
    {
      match stock
      case NoStock =>
        return Failure(400, "Stock symbol is required");
      case One(symbol) =>
        if symbol == "" {
          return Failure(400, "Stock symbol is required");
        }
        var ip := AnonymizeIp(ClientAddress(reqIp, remoteAddress));
        var price := quote(symbol);
        if price.None? {
          return Failure(500, "Stock not found");
        }
        var k := GetStockData(symbol, ip, like);
        FindStockUnique(stocks, k);
        res := Single(StockData(stocks[k].symbol, price.value, stocks[k].likes));
      case Many(symbols) =>
        if |symbols| != 2 {
          return Failure(400, "Invalid stock parameter");
        }
        var ip := AnonymizeIp(ClientAddress(reqIp, remoteAddress));
        var price1, price2 := quote(symbols[0]), quote(symbols[1]);
        if price1.None? || price2.None? {
          return Failure(500, "Stock not found");
        }
        var k1 := GetStockData(symbols[0], ip, like);
        var k2 := GetStockData(symbols[1], ip, like);
        FindStockUnique(stocks, k1);
        FindStockUnique(stocks, k2);
        // both records are read after both calls: one shared record gives `rel_likes` 0
        var relLikes := stocks[k1].likes - stocks[k2].likes;
        res := Pair(RelativeData(stocks[k1].symbol, price1.value, relLikes),
                    RelativeData(stocks[k2].symbol, price2.value, -relLikes));
    }
  }

  /** With one record per symbol, the record at `k` is the one found under its symbol. */
  lemma FindStockUnique(stocks: seq<Stock>, k: nat)
    requires k < |stocks|
    requires forall i, j :: 0 <= i < j < |stocks| ==> stocks[i].symbol != stocks[j].symbol
    ensures FindStock(stocks, stocks[k].symbol) == Some(k)
  {
    var f := FindStock(stocks, stocks[k].symbol);
    assert f.Some?;
    assert stocks[f.value].symbol == stocks[k].symbol;
  }

  /** Asking for two symbols that upper-case alike (`msft` and `MSFT`) in one request: the
      second `getStockData` finds the record the first one found or created and changes
      nothing, so the pair shares one record, gains at most one like, and its relative
      likes are 0. */
  lemma SameRecordNoRelativeLikes(stocks: seq<Stock>, a: string, b: string, ip: string, like: Option<string>)
    requires StoreOk(stocks) && Upper(a) == Upper(b)
    ensures var once := Recorded(stocks, a, ip, like);
      var twice := Recorded(once, b, ip, like);
      && twice == once
      && FindStock(twice, Upper(a)).Some? && FindStock(twice, Upper(b)) == FindStock(twice, Upper(a))
      && var k := FindStock(twice, Upper(a)).value;
      && twice[k].likes - twice[FindStock(twice, Upper(b)).value].likes == 0
      && twice[k].likes <= (if FindStock(stocks, Upper(a)).Some? then stocks[k].likes else 0) + 1
  {
    var once := Recorded(stocks, a, ip, like);
    RecordedKeepsStore(stocks, a, ip, like);
    var k := FindStock(once, Upper(a)).value;
    var before := match FindStock(stocks, Upper(a))
      case Some(j) => stocks[j]
      case None => Stock(Upper(a), 0, []);
    assert Consistent(before);
    assert once[k] == Liked(before, ip, like) by {
      match FindStock(stocks, Upper(a))
      case Some(j) => FindStockUnique(once, j);
      case None => FindStockUnique(once, |stocks|);
    }
    LikedOncePerAddress(before, ip, like);
    assert Recorded(once, b, ip, like) == once[k := Liked(once[k], ip, like)];
  }
}
