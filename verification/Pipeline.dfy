// When a span is priced (internal/pipeline/pipeline.go).
module Pipeline {
  import opened Prelude
  import opened TraceStore

  datatype Source = OTLP | Proxy | Import

  // The price table as a deterministic function of a span's provider and model columns, its tokens
  // and the cache-creation tokens, and the reader of those tokens from stored attributes.
  datatype Pricing = Pricing(cost: (Usage, Option<int>) -> Option<real>, parseCreation: string -> Option<int>)

  datatype Usage = Usage(provider: string, requestModel: string, responseModel: string, inputTokens: Option<int>,
                         outputTokens: Option<int>, cacheRead: Option<int>)

  function UsageOf(s: Span): Usage {
    Usage(s.provider, s.requestModel, s.responseModel, s.inputTokens, s.outputTokens, s.cacheRead)
  }

  predicate ShouldPrice(source: Source, s: Span) {
    s.cost.None? && s.inputTokens.Some? && s.outputTokens.Some? && (source == Proxy || Counted(s))
  }

  function Creation(p: Pricing, source: Source, s: Span): Option<int> {
    if s.cacheCreation.None? && source == Import then p.parseCreation(s.attributes) else s.cacheCreation
  }

  function Price(pricing: Option<Pricing>, source: Source, s: Span): Span {
    if pricing.None? || !ShouldPrice(source, s) then s
    else
      var cost := pricing.value.cost(UsageOf(s), Creation(pricing.value, source, s));
      if cost.None? then s else s.(cost := cost, costSource := "pricing")
  }

  function PriceAll(pricing: Option<Pricing>, source: Source, spans: seq<Span>): (priced: seq<Span>)
    ensures |priced| == |spans|
  {
    seq(|spans|, i requires 0 <= i < |spans| => Price(pricing, source, spans[i]))
  }

  // What the table is asked, column by column. Only an import reads the cache-creation tokens back from
  // the attributes.
  function Quoted(p: Pricing, source: Source, s: Span): Option<real> {
    p.cost(Usage(s.provider, s.requestModel, s.responseModel, s.inputTokens, s.outputTokens, s.cacheRead),
           if s.cacheCreation.Some? then s.cacheCreation
           else if source == Import then p.parseCreation(s.attributes) else None)
  }

  // A span gets the table's price exactly if it has none, both token counts are known, it is an LLM or
  // embedding span or comes from the proxy, and the table has a price; nothing else of it changes.
  lemma PricedByTheTable(p: Pricing, source: Source, s: Span)
    ensures var priced := Price(Some(p), source, s);
      if s.cost.None? && s.inputTokens.Some? && s.outputTokens.Some?
         && (source.Proxy? || s.kind.Llm? || s.kind.Embedding?) && Quoted(p, source, s).Some?
      then priced == s.(cost := Quoted(p, source, s), costSource := "pricing")
      else priced == s
    ensures Price(None, source, s) == s
  {
  }

  // The loop of Commit.
  method PriceBatch(pricing: Option<Pricing>, source: Source, spans: seq<Span>) returns (priced: seq<Span>)
    ensures priced == PriceAll(pricing, source, spans)
  {
    priced := spans;
    if pricing.Some? {
      for i := 0 to |spans|
        invariant |priced| == |spans|
        invariant forall j :: 0 <= j < |spans| ==>
          priced[j] == if j < i then Price(pricing, source, spans[j]) else spans[j]
      {
        if ShouldPrice(source, priced[i]) {
          var cost := pricing.value.cost(UsageOf(priced[i]), Creation(pricing.value, source, priced[i]));
          if cost.Some? {
            priced := priced[i := priced[i].(cost := cost, costSource := "pricing")];
          }
        }
      }
    }
  }

  // Importing this stored span would not price it again.
  ghost predicate Settled(pricing: Option<Pricing>, s: Span) {
    Price(pricing, Import, s) == s
  }

  // Whatever the source, a span that went through the pipeline is settled once stored, provided the
  // stored attributes still say how many cache-creation tokens it had, which is what the
  // normalizer reads them from.
  lemma PricedIsSettled(pricing: Option<Pricing>, source: Source, s: Span)
    requires pricing.Some? ==> Creation(pricing.value, source, s) == pricing.value.parseCreation(s.attributes)
    ensures Settled(pricing, Stored(Price(pricing, source, s)))
  {
  }

  // In general it is settled exactly when a later import has no price to add: it never prices such
  // spans, the span got its price, or the table has none for what the attributes say.
  lemma SettledIff(pricing: Pricing, source: Source, s: Span)
    ensures Settled(Some(pricing), Stored(Price(Some(pricing), source, s))) <==>
      || !ShouldPrice(Import, s)
      || pricing.cost(UsageOf(s), Creation(pricing, source, s)).Some?
      || pricing.cost(UsageOf(s), pricing.parseCreation(s.attributes)).None?
  {
    var stored := Stored(Price(Some(pricing), source, s));
    assert ShouldPrice(Import, s) ==> ShouldPrice(source, s);
    assert UsageOf(stored) == UsageOf(s) && Creation(pricing, Import, stored) == pricing.parseCreation(s.attributes);
  }

  // The proviso is needed: when attributes and tokens disagree, the table may refuse one price and
  // give the other, so a re-import prices what ingest left without a cost.
  lemma UnsettledWithoutProviso()
    ensures exists pricing, s :: !Settled(Some(pricing), Stored(Price(Some(pricing), OTLP, s)))
  {
    var pricing := Pricing((u: Usage, c: Option<int>) => if c == Some(1) then None
      else Some(0.0), (text: string) => None);
    var s := Span("t", "s", "", "n", Llm, "", 1, 2, 0, "", "", "", Some(1), Some(1), None, None, "", "", "", "", "",
      "", Some(1));
    assert Price(Some(pricing), OTLP, s) == s;
    assert Price(Some(pricing), Import, Stored(s)).cost == Some(0.0);
    assert !Settled(Some(pricing), Stored(Price(Some(pricing), OTLP, s)));
  }
}
