/**
 The fixed, ordered list of tokens the swap form offers, with the two lookups
 the form performs on it: the membership test of the validation schema and the
 `find` that produces the selector's trigger label, and the check mark shown
 beside each entry of a selector.
 */
module Catalog {
  import opened Results

  /** One catalog entry; swap.tsx stores each as an object with one `value` key. */
  datatype Coin = Coin(value: string)

  /** The catalog in display order. */
  const Coins: seq<Coin> := [
    Coin("ETH"), Coin("BTC"), Coin("USDC"), Coin("XRP"), Coin("FLR"),
    Coin("SOL"), Coin("ADA"), Coin("AVAX"), Coin("DOT"), Coin("MATIC"),
    Coin("LINK"), Coin("UNI"), Coin("AAVE"), Coin("ATOM"), Coin("DOGE"),
    Coin("SHIB"), Coin("LTC"), Coin("BCH"), Coin("XLM"), Coin("ALGO")
  ]

  /** The symbol is listed: some entry carries exactly this value. */
  predicate Listed(cs: seq<Coin>, symbol: string) {
    Coin(symbol) in cs
  }

  /** Membership in the token catalog. */
  predicate IsCoin(symbol: string) {
    Listed(Coins, symbol)
  }

  /** No symbol appears twice. */
  ghost predicate Distinct(cs: seq<Coin>) {
    forall i, j :: 0 <= i < j < |cs| ==> cs[i].value != cs[j].value
  }

  /** The catalog has twenty entries. */
  lemma CatalogSize()
    ensures |Coins| == 20
  {
  }

  /** No catalog entry is the empty string, so the empty string is not listed. */
  lemma CatalogNonEmpty()
    ensures forall i :: 0 <= i < |Coins| ==> Coins[i].value != ""
    ensures !IsCoin("")
  {
  }

  /** A list is without repeats when both halves are and no symbol occurs in both. */
  lemma DistinctJoin(cs: seq<Coin>, m: nat)
    requires m <= |cs|
    requires Distinct(cs[..m]) && Distinct(cs[m..])
    requires forall i, j :: 0 <= i < m <= j < |cs| ==> cs[i].value != cs[j].value
    ensures Distinct(cs)
  {
    forall i, j | 0 <= i < j < |cs| ensures cs[i].value != cs[j].value {
      if j < m {
        assert cs[..m][i] == cs[i] && cs[..m][j] == cs[j];
      } else if m <= i {
        assert cs[m..][i - m] == cs[i] && cs[m..][j - m] == cs[j];
      }
    }
  }

  lemma FirstHalfDistinct()
    ensures Distinct(Coins[..10])
  {
  }

  lemma SecondHalfDistinct()
    ensures Distinct(Coins[10..])
  {
  }

  lemma HalvesApart()
    ensures forall i, j :: 0 <= i < 10 <= j < |Coins| ==> Coins[i].value != Coins[j].value
  {
  }

  /** No two catalog entries carry the same symbol. */
  lemma CatalogDistinct()
    ensures Distinct(Coins)
  {
    FirstHalfDistinct();
    SecondHalfDistinct();
    HalvesApart();
    DistinctJoin(Coins, 10);
  }

  /** `cs.some(coin => coin.value === symbol)`: a left-to-right scan with exact, case-sensitive equality. */
  function AnyMatches(cs: seq<Coin>, symbol: string): (found: bool)
    ensures found <==> Listed(cs, symbol)
  {
    if |cs| == 0 then false
    else if cs[0].value == symbol then true
    else
      assert cs == [cs[0]] + cs[1..];
      AnyMatches(cs[1..], symbol)
  }

  /** Membership compares symbols exactly: "ETH" is a member and "eth" is not. */
  lemma CatalogIsCaseSensitive()
    ensures IsCoin("ETH") && !IsCoin("eth")
  {
    assert Coins[0] == Coin("ETH");
    assert Coin("eth") !in Coins by {
      UpperCaseOnly();
      assert "eth"[0] == 'e';
    }
  }

  /** Every catalog symbol begins with an upper-case letter. */
  lemma UpperCaseOnly()
    ensures forall i :: 0 <= i < |Coins| ==> |Coins[i].value| > 0 && 'A' <= Coins[i].value[0] <= 'Z'
  {
  }

  /** The same membership test written as a loop over the catalog. */
  method ContainsCoin(symbol: string) returns (found: bool)
    ensures found <==> IsCoin(symbol)
  {
    found := false;
    var i := 0;
    while i < |Coins| && !found
      invariant 0 <= i <= |Coins|
      invariant found <==> Coin(symbol) in Coins[..i]
    {
      found := Coins[i].value == symbol;
      assert Coins[..i + 1] == Coins[..i] + [Coins[i]];
      i := i + 1;
    }
    assert !found ==> Coins[..i] == Coins;
  }

  /** `cs.find(coin => coin.value === symbol)`: the first entry carrying the symbol, if any. */
  function Find(cs: seq<Coin>, symbol: string): (r: Option<Coin>)
    ensures r.Some? <==> Listed(cs, symbol)
    ensures r.Some? ==> r.value == Coin(symbol)
  {
    if |cs| == 0 then None
    else if cs[0].value == symbol then Some(cs[0])
    else
      assert cs == [cs[0]] + cs[1..];
      Find(cs[1..], symbol)
  }

  /** What a selector's trigger button shows. */
  datatype Label =
    | Placeholder          // the text "Select token..."
    | Symbol(text: string) // the symbol of the matching catalog entry
    | Blank                // `find` returned undefined, which renders nothing

  /** The trigger label: an empty value (falsy in the TypeScript component) shows the placeholder, otherwise the `find` result's symbol. */
  function TriggerLabel(value: string): (l: Label)
    ensures l == Placeholder <==> value == ""
    ensures l.Symbol? <==> IsCoin(value)
    ensures l.Symbol? ==> l.text == value
    ensures l == Blank <==> value != "" && !IsCoin(value)
  {
    CatalogNonEmpty();
    if value != "" then
      match Find(Coins, value)
      case Some(c) => Symbol(c.value)
      case None => Blank
    else Placeholder
  }

  /** The check-mark state of each entry of `cs`, in order: an entry is marked when its value equals the field value. */
  function Marks(cs: seq<Coin>, value: string): (marks: seq<bool>)
    ensures |marks| == |cs|
    ensures forall i :: 0 <= i < |cs| ==> (marks[i] <==> cs[i].value == value)
  {
    if |cs| == 0 then [] else [cs[0].value == value] + Marks(cs[1..], value)
  }

  /** The check marks of one selector list, which shows the whole catalog. */
  function CheckMarks(value: string): seq<bool> {
    Marks(Coins, value)
  }

  /** The number of marked entries. */
  function CountMarked(marks: seq<bool>): nat {
    if |marks| == 0 then 0 else (if marks[0] then 1 else 0) + CountMarked(marks[1..])
  }

  /** Over a list without repeats, exactly one entry is marked when the value is listed and none otherwise. */
  lemma {:induction false} MarkedCount(cs: seq<Coin>, value: string)
    requires Distinct(cs)
    ensures CountMarked(Marks(cs, value)) == if Listed(cs, value) then 1 else 0
  {
    if |cs| > 0 {
      var tail := cs[1..];
      assert Distinct(tail) by {
        forall i, j | 0 <= i < j < |tail| ensures tail[i] != tail[j] {
          assert tail[i] == cs[i + 1] && tail[j] == cs[j + 1];
        }
      }
      MarkedCount(tail, value);
      var ms := Marks(cs, value);
      assert ms[1..] == Marks(tail, value);
      assert cs == [cs[0]] + tail;
    }
  }

  /** In a selector at most one entry shows the check mark, and exactly one does when the field holds a catalog symbol. */
  lemma CheckMarkUnique(value: string)
    ensures CountMarked(CheckMarks(value)) <= 1
    ensures CountMarked(CheckMarks(value)) == 1 <==> IsCoin(value)
  {
    CatalogDistinct();
    MarkedCount(Coins, value);
  }

  /** The symbol of every list item is a catalog member. */
  lemma ItemListed(i: nat)
    requires i < |Coins|
    ensures IsCoin(Coins[i].value)
  {
    assert Coins[i] == Coin(Coins[i].value);
  }

  /** A field holding a catalog symbol shows that symbol on the trigger and exactly one check mark. */
  lemma ListedSymbolDisplay(symbol: string)
    requires IsCoin(symbol)
    ensures TriggerLabel(symbol) == Symbol(symbol)
    ensures CountMarked(CheckMarks(symbol)) == 1
  {
    CheckMarkUnique(symbol);
  }

  /** Picking list item `i` puts that item's symbol on the trigger and its check mark alone. */
  lemma ItemDisplay(i: nat)
    requires i < |Coins|
    ensures TriggerLabel(Coins[i].value) == Symbol(Coins[i].value)
    ensures CountMarked(CheckMarks(Coins[i].value)) == 1
  {
    ItemListed(i);
    ListedSymbolDisplay(Coins[i].value);
  }
}
