/** The purchase loop of frank.py: recipients and senders parsed, then one
    position per recipient, with the sender and product lists consumed
    one entry per recipient until only their last entry is left. */
module Orders {
  import opened Wrappers
  import opened Errors
  import opened Addresses
  import opened CsvRows
  import opened Layout
  import opened Catalog

  // ---------------------------------------------------------------------
  // `parse_addresses`
  // ---------------------------------------------------------------------

  /** Position of the first address string that does not parse,
      `|strs|` when all of them do. */
  function FirstFailure(strs: seq<string>, conf: Config): (k: nat)
    ensures k <= |strs|
    ensures forall j :: 0 <= j < k ==> ParseAddress(strs[j], conf).Ok?
    ensures k < |strs| ==> ParseAddress(strs[k], conf).Err?
  {
    if |strs| == 0 then 0
    else if ParseAddress(strs[0], conf).Err? then 0
    else 1 + FirstFailure(strs[1..], conf)
  }

  /** Every address string parsed in order; the first one that fails
      aborts the whole list with its error. */
  function ParseEach(strs: seq<string>, conf: Config): (r: Result<seq<Address>, Error>)
    ensures r.Ok? <==> FirstFailure(strs, conf) == |strs|
    ensures r.Ok? ==> |r.value| == |strs|
    ensures r.Ok? ==> forall k :: 0 <= k < |strs| ==>
      ParseAddress(strs[k], conf).Ok? && r.value[k] == ParseAddress(strs[k], conf).value
    ensures r.Err? ==> r.error == ParseAddress(strs[FirstFailure(strs, conf)], conf).error
  {
    if |strs| == 0 then Ok([])
    else
      var first := ParseAddress(strs[0], conf);
      if first.Err? then Err(first.error)
      else
        var rest := ParseEach(strs[1..], conf);
        if rest.Err? then
          assert strs[1..][FirstFailure(strs[1..], conf)] == strs[FirstFailure(strs, conf)];
          Err(rest.error)
        else
          var all := [first.value] + rest.value;
          assert forall k :: 0 < k < |strs| ==> strs[k] == strs[1..][k - 1] && all[k] == rest.value[k - 1];
          Ok(all)
  }

  /** The sender used when none is given on the command line. */
  const DefaultSender: string := "$default"

  /** What the purchase loop works on. */
  datatype Inputs = Inputs(recipients: seq<Address>, senders: seq<Address>, products: seq<string>)

  /** `parse_args`: the sender strings, `$default` when none are given. */
  function SenderStrings(senderArgs: seq<string>): (strs: seq<string>)
    ensures |strs| >= 1
    ensures |senderArgs| > 0 ==> strs == senderArgs
  {
    if |senderArgs| == 0 then [DefaultSender] else senderArgs
  }

  /** From position `start` on, the addresses are the CSV data rows, each
      cut or padded to seven fields. */
  predicate CsvAppended(addresses: seq<Address>, start: nat, rows: seq<seq<string>>)
  {
    && start <= |addresses|
    && |addresses| - start == |rows| - 1
    && forall k :: start <= k < |addresses| ==> ToFields(addresses[k]) == NormaliseRow(rows[k - start + 1])
  }

  lemma AppendRows(front: seq<Address>, table: seq<Address>, rows: seq<seq<string>>)
    requires |rows| >= 1 && |table| == |rows| - 1
    requires forall k :: 0 <= k < |rows| - 1 ==> ToFields(table[k]) == NormaliseRow(rows[k + 1])
    ensures CsvAppended(front + table, |front|, rows)
  {
    var all := front + table;
    forall k | |front| <= k < |all|
      ensures ToFields(all[k]) == NormaliseRow(rows[k - |front| + 1])
    {
      assert all[k] == table[k - |front|];
    }
  }

  /** `parse_addresses`: recipient strings, then sender strings, then the
      CSV file if one is given, whose rows are appended to the recipients
      and whose overrides are appended to the products. */
  method ParseAddresses(recipientArgs: seq<string>, senderArgs: seq<string>,
                        csv: Option<seq<seq<string>>>, products: seq<string>, conf: Config)
    returns (r: Result<Inputs, Error>)
    ensures ParseEach(recipientArgs, conf).Err? ==> r == Err(ParseEach(recipientArgs, conf).error)
    ensures ParseEach(recipientArgs, conf).Ok? && ParseEach(SenderStrings(senderArgs), conf).Err? ==>
      r == Err(ParseEach(SenderStrings(senderArgs), conf).error)
    ensures r.Ok? ==> ParseEach(recipientArgs, conf).Ok? && ParseEach(SenderStrings(senderArgs), conf).Ok?
    ensures r.Ok? ==> r.value.senders == ParseEach(SenderStrings(senderArgs), conf).value
    ensures r.Ok? ==> |r.value.senders| >= 1
    ensures r.Ok? ==> |r.value.recipients| >= |recipientArgs|
    ensures r.Ok? ==> r.value.recipients[..|recipientArgs|] == ParseEach(recipientArgs, conf).value
    ensures csv.Some? && |csv.value| == 0 ==> r.Err?
    ensures csv.Some? && |csv.value| == 0 && ParseEach(recipientArgs, conf).Ok? && ParseEach(SenderStrings(senderArgs), conf).Ok? ==>
      r == Err(MissingHeader)
    ensures csv.None? && ParseEach(recipientArgs, conf).Ok? && ParseEach(SenderStrings(senderArgs), conf).Ok? ==>
      r.Ok? && |r.value.recipients| == |recipientArgs| && r.value.products == products
    ensures csv.Some? && |csv.value| > 0 && ParseEach(recipientArgs, conf).Ok? && ParseEach(SenderStrings(senderArgs), conf).Ok? ==>
      && r.Ok?
      && |r.value.recipients| == |recipientArgs| + |csv.value| - 1
      && r.value.products == products + Overrides(csv.value[1..])
    ensures r.Ok? && csv.Some? ==> CsvAppended(r.value.recipients, |recipientArgs|, csv.value)
  {
    var recipients :- ParseEach(recipientArgs, conf);
    var senders :- ParseEach(SenderStrings(senderArgs), conf);
    if csv.None? {
      assert recipients[..|recipientArgs|] == recipients;
      return Ok(Inputs(recipients, senders, products));
    }
    var table :- ParseCsv(csv.value);
    var all := recipients + table.addresses;
    assert all[..|recipientArgs|] == recipients;
    AppendRows(recipients, table.addresses, csv.value);
    return Ok(Inputs(all, senders, products + table.overrides));
  }

  // ---------------------------------------------------------------------
  // `buy` and the purchase loop of `run`
  // ---------------------------------------------------------------------

  /** One position of the order: sender, recipient, product and placement. */
  datatype Position = Position(sender: PostalAddress, recipient: PostalAddress, product: string, place: Placement)

  /** The list entry in use for the k-th recipient: entries are used one
      per recipient, and the last one for every recipient after that. */
  function Cursor<T>(xs: seq<T>, k: nat): (x: T)
    requires |xs| > 0
    ensures k < |xs| ==> x == xs[k]
    ensures k >= |xs| - 1 ==> x == xs[|xs| - 1]
  {
    xs[if k < |xs| then k else |xs| - 1]
  }

  /** `buy`: both address objects built, the placement of the i-th stamp
      computed; a grid without labels divides by zero. */
  function Buy(sender: Address, recipient: Address, product: string, i: nat, g: Grid): (r: Result<Position, Error>)
    ensures r.Err? <==> !ValidGrid(g)
    ensures r.Err? ==> r.error == EmptyGrid
    ensures r.Ok? ==> r.value.product == product
    ensures r.Ok? ==> OnSheet(r.value.place, g) && Index(r.value.place, g) == i
  {
    var src := MkAddress(sender);
    var dst := MkAddress(recipient);
    if !ValidGrid(g) then Err(EmptyGrid)
    else
      PlaceIndexOf(i, g);
      Ok(Position(src, dst, product, Place(i, g)))
  }

  /** How far a list consumed by `xs = xs[1:]` while longer than one has
      advanced after i recipients. */
  function Consumed(n: nat, i: nat): nat
  {
    if n == 0 then 0 else if i < n - 1 then i else n - 1
  }

  /** The position the loop adds for recipient k. */
  function PositionFor(recipients: seq<Address>, senders: seq<Address>, products: seq<string>, g: Grid, k: nat): Position
    requires k < |recipients| && |senders| > 0 && |products| > 0 && ValidGrid(g)
  {
    Position(MkAddress(Cursor(senders, k)), MkAddress(recipients[k]), Cursor(products, k), Place(k, g))
  }

  /** The first n positions are those of recipients 0 to n-1. */
  predicate Purchased(positions: seq<Position>, recipients: seq<Address>, senders: seq<Address>,
                      products: seq<string>, g: Grid, n: nat)
  {
    && n <= |recipients| && |senders| > 0 && |products| > 0 && ValidGrid(g)
    && |positions| == n
    && forall k :: 0 <= k < n ==> positions[k] == PositionFor(recipients, senders, products, g, k)
  }

  /** The purchase loop of `run`: the format looked up first, then the
      positions bought on its label grid. */
  method Run(recipients: seq<Address>, senders: seq<Address>, products: seq<string>,
             formats: seq<Format>, formatId: int)
    returns (r: Result<seq<Position>, Error>)
    ensures GetFormat(formats, formatId).Err? ==> r == Err(UnknownFormat(formatId))
    ensures GetFormat(formats, formatId).Ok? ==>
      r == Purchase(recipients, senders, products, GetPageInfo(GetFormat(formats, formatId).value))
  {
    var format :- GetFormat(formats, formatId);
    var g := GetPageInfo(format);
    r := BuyAll(recipients, senders, products, g);
  }

  /** What the purchase loop yields on a given label grid: nothing for no
      recipients; a missing sender, then a missing product, then an
      unusable grid fails; else one position per recipient. */
  function Purchase(recipients: seq<Address>, senders: seq<Address>, products: seq<string>, g: Grid): (r: Result<seq<Position>, Error>)
    ensures r.Ok? && |recipients| > 0 ==> Purchased(r.value, recipients, senders, products, g, |recipients|)
  {
    if |recipients| == 0 then Ok([])
    else if |senders| == 0 then Err(NoSender)
    else if |products| == 0 then Err(NoProduct)
    else if !ValidGrid(g) then Err(EmptyGrid)
    else Ok(seq(|recipients|, k requires 0 <= k < |recipients| => PositionFor(recipients, senders, products, g, k)))
  }

  /** The recipient loop of `run`: one position per recipient, the sender
      and product lists advancing one entry per recipient until only their
      last entry is left. */
  method BuyAll(recipients: seq<Address>, senders: seq<Address>, products: seq<string>, g: Grid)
    returns (r: Result<seq<Position>, Error>)
    ensures r == Purchase(recipients, senders, products, g)
  {
    // The remaining lists `ss` and `ps` are `senders[js..]` and `products[jp..]`.
    var js, jp := 0, 0;
    var positions: seq<Position> := [];
    var i := 0;
    while i < |recipients|
      invariant 0 <= i <= |recipients|
      invariant js == Consumed(|senders|, i) && jp == Consumed(|products|, i)
      invariant i == 0 ==> positions == []
      invariant i > 0 ==> |senders| > 0 && |products| > 0 && ValidGrid(g)
      invariant i > 0 ==> Purchased(positions, recipients, senders, products, g, i)
    {
      if |senders| - js == 0 {
        return Err(NoSender);
      }
      if |products| - jp == 0 {
        return Err(NoProduct);
      }
      CursorStep(senders, i);
      CursorStep(products, i);
      var bought := Buy(senders[js], recipients[i], products[jp], i, g);
      if bought.Err? {
        return Err(bought.error);
      }
      BuyPosition(senders[js], recipients[i], products[jp], i, g);
      PurchasedStep(positions, recipients, senders, products, g, i);
      positions := positions + [bought.value];
      if |products| - jp > 1 {
        jp := jp + 1;
      }
      if |senders| - js > 1 {
        js := js + 1;
      }
      i := i + 1;
    }
    if i > 0 {
      PurchasedUnique(positions, Purchase(recipients, senders, products, g).value, recipients, senders, products, g, i);
    }
    return Ok(positions);
  }

  /** One more round of the loop extends the purchased prefix by the
      position of the next recipient. */
  lemma PurchasedStep(positions: seq<Position>, recipients: seq<Address>, senders: seq<Address>,
                      products: seq<string>, g: Grid, i: nat)
    requires i < |recipients| && |senders| > 0 && |products| > 0 && ValidGrid(g)
    requires i == 0 ==> positions == []
    requires i > 0 ==> Purchased(positions, recipients, senders, products, g, i)
    ensures Purchased(positions + [PositionFor(recipients, senders, products, g, i)], recipients, senders, products, g, i + 1)
  {
  }

  /** The positions of the first n recipients are determined. */
  lemma PurchasedUnique(a: seq<Position>, b: seq<Position>, recipients: seq<Address>, senders: seq<Address>,
                        products: seq<string>, g: Grid, n: nat)
    requires Purchased(a, recipients, senders, products, g, n)
    requires Purchased(b, recipients, senders, products, g, n)
    ensures a == b
  {
  }

  /** What one round of the loop reads from a list consumed by
      `xs = xs[1:]` while longer than one, and how far it has got after. */
  lemma CursorStep<T>(xs: seq<T>, i: nat)
    requires |xs| > 0
    ensures Consumed(|xs|, i) < |xs| && xs[Consumed(|xs|, i)] == Cursor(xs, i)
    ensures Consumed(|xs|, i + 1) == if |xs| - Consumed(|xs|, i) > 1 then Consumed(|xs|, i) + 1 else Consumed(|xs|, i)
  {
  }

  /** On a usable grid `Buy` pairs the two address objects with the product
      and the placement of the i-th stamp. */
  lemma BuyPosition(sender: Address, recipient: Address, product: string, i: nat, g: Grid)
    requires ValidGrid(g)
    ensures Buy(sender, recipient, product, i, g) == Ok(Position(MkAddress(sender), MkAddress(recipient), product, Place(i, g)))
  {
  }

  /** The address objects of a bought position are built from the sender
      and recipient tuples, with nothing lost. */
  lemma BuyKeepsAddresses(sender: Address, recipient: Address, product: string, i: nat, g: Grid)
    requires ValidGrid(g)
    ensures Buy(sender, recipient, product, i, g).Ok?
    ensures Flatten(Buy(sender, recipient, product, i, g).value.sender) == sender
    ensures Flatten(Buy(sender, recipient, product, i, g).value.recipient) == recipient
  {
    MkAddressKeeps(sender);
    MkAddressKeeps(recipient);
  }

  /** What the purchase yields, entry by entry: it fails only for a missing
      sender, product or usable grid, and then recipient k is sent from
      sender k (or the last sender), with product k (or the last product),
      to the k-th spot of the sheet. */
  lemma {:induction false} PurchaseContents(recipients: seq<Address>, senders: seq<Address>, products: seq<string>, g: Grid, k: nat)
    requires k < |recipients|
    ensures Purchase(recipients, senders, products, g).Ok? <==> |senders| > 0 && |products| > 0 && ValidGrid(g)
    ensures Purchase(recipients, senders, products, g).Ok? ==>
      var p := Purchase(recipients, senders, products, g).value[k];
      && |Purchase(recipients, senders, products, g).value| == |recipients|
      && Flatten(p.recipient) == recipients[k]
      && Flatten(p.sender) == senders[if k < |senders| then k else |senders| - 1]
      && p.product == products[if k < |products| then k else |products| - 1]
      && OnSheet(p.place, g) && Index(p.place, g) == k
  {
    var r := Purchase(recipients, senders, products, g);
    if r.Ok? {
      MkAddressKeeps(recipients[k]);
      MkAddressKeeps(Cursor(senders, k));
      PlaceIndexOf(k, g);
    }
  }

  /** Exhausted lists stick on their last entry: one sender serves every
      recipient, and with two senders the third recipient gets the second
      one again. */
  lemma CursorSticksOnLast<T>(xs: seq<T>, k: nat)
    requires |xs| > 0 && k >= |xs|
    ensures Cursor(xs, k) == Cursor(xs, k - 1) == xs[|xs| - 1]
  {
  }
}
