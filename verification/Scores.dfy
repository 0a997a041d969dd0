/**
 Verdict scales, credit lines and provenance tags: what one scored run says
 about an item, and who found it.
 */
module Scores {
  import opened Wrappers

  /** The key an item is scored under. */
  type Item = string

  /** The three verdict scales; a verdict's rank is its index on its scale, worst first. */
  datatype Scale = Key | Fact | Claim

  function Size(scale: Scale): nat {
    match scale
    case Key => 5    // wrong, missed, partly (dump), partly (body), found
    case Fact => 4   // missed, mentioned, partial, found
    case Claim => 2  // false, not claimed
  }

  /** The lowest credited rank: "partly (dump)" and "partial"; the claim scale credits nothing. */
  function CreditLine(scale: Scale): Option<nat> {
    match scale
    case Key => Some(2)
    case Fact => Some(2)
    case Claim => None
  }

  predicate Credited(scale: Scale, level: Option<nat>) {
    CreditLine(scale).Some? && level.Some? && level.value >= CreditLine(scale).value
  }

  /** What one cited ledger entry is. */
  datatype EntryClass = Analysis | Lookup | Undeclared | NoAnswer | NotInLedger

  datatype Tag = Own | Both | LookupOnly | Untold | NoEntry | NotRead | Mixed

  predicate ByAnalysis(tag: Tag) { tag == Own || tag == Both }

  /** Who found an item whose crediting entries are of these classes. */
  function TagOf(classes: set<EntryClass>): Tag {
    if Analysis in classes then (if Lookup in classes then Both else Own)
    else if Lookup in classes then (if Undeclared !in classes then LookupOnly else Untold)
    else if Undeclared in classes then Untold
    else NoEntry
  }

  datatype ItemProvenance = ItemProvenance(tag: Tag, entries: map<string, EntryClass>)

  /** How a run's provenance is filled: classed from its entries, or not read at all. */
  ghost predicate Attributed(p: ItemProvenance) {
    p.tag == TagOf(p.entries.Values) || (p.tag == NotRead && p.entries == map[])
  }

  datatype Verdict = Verdict(scale: Scale, level: Option<nat>)

  datatype ScoredRun = ScoredRun(
    name: string,
    verdicts: map<Item, Verdict>,
    beyond: Option<int>,
    provenance: map<Item, ItemProvenance>)
  {
    /** Every known verdict is a word of its own scale. */
    ghost predicate Valid() {
      forall item :: item in verdicts && verdicts[item].level.Some? ==>
        verdicts[item].level.value < Size(verdicts[item].scale)
    }

    /** The rank the run gives an item; none for an unknown verdict or an item not scored. */
    function Level(item: Item): Option<nat> {
      if item in verdicts then verdicts[item].level else None
    }

    function TagFor(item: Item): Tag {
      if item in provenance then provenance[item].tag else NotRead
    }
  }
}
