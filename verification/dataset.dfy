/**
 The two read-only tables the dashboard is built on, and the records its
 queries return. Year keys are integers: the textual keys of the ranking
 document are converted once, where the document is loaded.
 */
module Dataset {
  import opened Options

  /** Character identifiers are only ever compared for equality. */
  type CharacterId = int

  /** One row of the character catalog. */
  datatype Character = Character(id: CharacterId, name: string, debutYear: int)

  /** One row of a year's ranking list. */
  datatype Entry = Entry(characterId: CharacterId, rank: int, votes: int)

  /** The year-indexed ranking lists, each in stored (rank) order. */
  type Rankings = map<int, seq<Entry>>

  /** Both documents, held for the lifetime of the page and never mutated. */
  datatype Store = Store(characters: seq<Character>, rankings: Rankings, totalVotes: map<int, int>)

  /** One point of a character's sparse ranking history. */
  datatype HistoryPoint = HistoryPoint(year: int, rank: int, votes: int)

  /** A ranking entry with its catalog record joined in. */
  datatype Ranked = Ranked(characterId: CharacterId, rank: int, votes: int, character: Option<Character>)

  /**
   Every joined record resolved. The views that read a record's debut year or
   name off a joined entry fail on an entry whose record is absent.
   */
  predicate Resolved(items: seq<Ranked>) {
    forall x :: x in items ==> x.character.Some?
  }

  /** A current-year entry compared against the previous year; None plays the part of `null`. */
  datatype Change = Change(
    characterId: CharacterId,
    rank: int,
    votes: int,
    character: Option<Character>,
    previousRank: Option<int>,
    change: Option<int>)

  /**
   The shape a year's list is expected to have: positive ranks, non-negative
   votes, ranks strictly ascending and no character listed twice. Nothing in
   the dashboard checks this; lemmas use it as a hypothesis.
   */
  predicate ValidRanking(entries: seq<Entry>) {
    && (forall i :: 0 <= i < |entries| ==> entries[i].rank >= 1 && entries[i].votes >= 0)
    && (forall i, j :: 0 <= i < j < |entries| ==>
          entries[i].rank < entries[j].rank && entries[i].characterId != entries[j].characterId)
  }
}
