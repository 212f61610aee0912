/** Resolution of one order item, and the order-item pool that runs it over a list of commands. */
module OrderItems {
  import opened Basics
  import opened Text
  import WorkerPool

  datatype Source = Unresolved | BySku | ByAlternateName

  datatype Command = Command(sku: string, alternateName: string, productID: string, quantity: int, value: real)

  datatype Item = Item(
    sku: string, alternateName: string, productID: string, quantity: int, value: real, source: Source)

  datatype Resolution = Resolution(productID: string, matchedBy: string)

  /** The product catalogue: finds a product by SKU and alternate name, finds none, or fails. */
  type Resolver = (string, string) -> Result<Option<Resolution>, string>

  /** The command's own values, before any catalogue is asked. */
  function Unmatched(c: Command): Item {
    Item(TrimSpace(c.sku), TrimSpace(c.alternateName), TrimSpace(c.productID), c.quantity, c.value, Unresolved)
  }

  function SourceOf(matchedBy: string): Source {
    if matchedBy == "sku" then BySku else if matchedBy == "alternate_name" then ByAlternateName else Unresolved
  }

  function Matched(item: Item, found: Resolution): Item {
    item.(productID := TrimSpace(found.productID), source := SourceOf(ToLower(TrimSpace(found.matchedBy))))
  }

  /** Resolves an item whose text fields are trimmed. */
  function Resolve(resolver: Option<Resolver>, item: Item): Result<Item, string> {
    if item.productID != "" then Ok(item.(source := BySku))
    else if resolver.None? then Ok(item)
    else match resolver.value(item.sku, item.alternateName)
      case Err(e) => Err(e)
      case Ok(None) => Ok(item)
      case Ok(Some(found)) => Ok(Matched(item, found))
  }

  function ResolveItem(resolver: Option<Resolver>, c: Command): Result<Item, string> {
    Resolve(resolver, Unmatched(c))
  }

  function ResolveJob(resolver: Option<Resolver>, commands: seq<Command>): WorkerPool.Job<Command, Item, string> {
    WorkerPool.Job(commands, c => ResolveItem(resolver, c), Item("", "", "", 0, 0.0, Unresolved))
  }

  /** The catalogue is asked for the command's product, as there is no product id, and fails. */
  ghost predicate LookupFails(resolver: Option<Resolver>, c: Command) {
    && TrimSpace(c.productID) == "" && resolver.Some?
    && resolver.value(TrimSpace(c.sku), TrimSpace(c.alternateName)).Err?
  }

  ghost predicate FailsWith(resolver: Option<Resolver>, c: Command, error: string) {
    resolver.Some? && resolver.value(TrimSpace(c.sku), TrimSpace(c.alternateName)) == Err(error)
  }

  /** The row takes over the command's own fields, and a given product id; otherwise the catalogue decides. */
  ghost predicate RowOf(resolver: Option<Resolver>, c: Command, row: Item) {
    && row.sku == TrimSpace(c.sku) && row.alternateName == TrimSpace(c.alternateName)
    && row.quantity == c.quantity && row.value == c.value
    && if TrimSpace(c.productID) != "" then row.productID == TrimSpace(c.productID) && row.source == BySku
       else if resolver.None? then row.productID == "" && row.source == Unresolved
       else IsAnswer(resolver.value(TrimSpace(c.sku), TrimSpace(c.alternateName)), row)
  }

  /** A product that the catalogue knows, by the name that it says it was found by; or none. */
  ghost predicate IsAnswer(answer: Result<Option<Resolution>, string>, row: Item) {
    match answer
    case Err(_) => false
    case Ok(None) => row.productID == "" && row.source == Unresolved
    case Ok(Some(found)) =>
      && row.productID == TrimSpace(found.productID)
      && (row.source == BySku <==> Names(found, "sku"))
      && (row.source == ByAlternateName <==> Names(found, "alternate_name"))
  }

  ghost predicate Names(found: Resolution, name: string) {
    ToLower(TrimSpace(found.matchedBy)) == name
  }

  lemma ItemMeaning(resolver: Option<Resolver>, c: Command)
    ensures ResolveItem(resolver, c).Err? <==> LookupFails(resolver, c)
    ensures ResolveItem(resolver, c).Ok? ==> RowOf(resolver, c, ResolveItem(resolver, c).value)
    ensures ResolveItem(resolver, c).Err? ==> FailsWith(resolver, c, ResolveItem(resolver, c).error)
  {
    if ResolveItem(resolver, c).Ok? && TrimSpace(c.productID) == "" && resolver.Some? {
      var answer := resolver.value(TrimSpace(c.sku), TrimSpace(c.alternateName)).value;
      if answer.Some? { MatchIsNamed(Unmatched(c), answer.value); }
    }
  }

  lemma MatchIsNamed(item: Item, found: Resolution)
    ensures IsAnswer(Ok(Some(found)), Matched(item, found))
  {
    SourceIsNamed(ToLower(TrimSpace(found.matchedBy)));
  }

  lemma SourceIsNamed(matchedBy: string)
    ensures SourceOf(matchedBy) == BySku <==> matchedBy == "sku"
    ensures SourceOf(matchedBy) == ByAlternateName <==> matchedBy == "alternate_name"
  {
    if matchedBy == "sku" { assert |matchedBy| == 3; }
  }

  /**
   Every interleaving of the pool fails exactly when the lookup of some command without a product id
   fails; otherwise row i carries command i's own fields and what the catalogue says about them.
   */
  lemma ResolveItemsResult(
      resolver: Option<Resolver>, commands: seq<Command>,
      steps: seq<WorkerPool.Step>, result: Result<seq<Item>, string>)
    requires WorkerPool.Ends(ResolveJob(resolver, commands), steps, result)
    ensures result.Err? <==> exists i :: 0 <= i < |commands| && LookupFails(resolver, commands[i])
    ensures result.Err? ==> exists i :: 0 <= i < |commands| && FailsWith(resolver, commands[i], result.error)
    ensures result.Ok? ==> |result.value| == |commands|
    ensures result.Ok? ==> forall i :: 0 <= i < |commands| ==> RowOf(resolver, commands[i], result.value[i])
  {
    var job := ResolveJob(resolver, commands);
    WorkerPool.EveryRunAgrees(job, steps, result);
    WorkerPool.SequentialMeaning(job);
    var fails := (c: Command) => LookupFails(resolver, c);
    var keeps := (c: Command, row: Item) => RowOf(resolver, c, row);
    forall c
      ensures job.resolve(c).Err? <==> fails(c)
      ensures job.resolve(c).Ok? ==> keeps(c, job.resolve(c).value)
    {
      ItemMeaning(resolver, c);
    }
    ResultMeaning(job, result, fails, keeps);
    if result.Err? {
      var i :| 0 <= i < |commands| && fails(commands[i]);
      var j :| 0 <= j < |commands| && job.Outcome(j) == Err(result.error);
      ItemMeaning(resolver, commands[j]);
    }
  }

  /** What holds of every command's outcome holds of the result. */
  lemma ResultMeaning<C, I, E>(
      job: WorkerPool.Job<C, I, E>, result: Result<seq<I>, E>, fails: C -> bool, keeps: (C, I) -> bool)
    requires WorkerPool.Correct(job, result)
    requires forall c :: job.resolve(c).Err? <==> fails(c)
    requires forall c :: job.resolve(c).Ok? ==> keeps(c, job.resolve(c).value)
    ensures result.Err? <==> exists i :: 0 <= i < |job.commands| && fails(job.commands[i])
    ensures result.Ok? ==> |result.value| == |job.commands|
    ensures result.Ok? ==> forall i :: 0 <= i < |job.commands| ==> keeps(job.commands[i], result.value[i])
  {
    if result.Ok? {
      forall i | 0 <= i < |job.commands|
        ensures !fails(job.commands[i]) && keeps(job.commands[i], result.value[i])
      {
        assert job.Outcome(i) == Ok(result.value[i]);
      }
    }
  }
}
