/**
 * The Cloudflare worker behind the wish list (hono-backend/src/index.ts):
 * the priority score of a wish and the POST /items handler that mints an
 * id, scores the posted draft and stores the new item in the KV namespace.
 *
 * Scores are exact `real`s: the worker uses IEEE-754 doubles, whose
 * rounding (1.5 * 1 * 0.1 is not exactly 0.15) is not modelled.
 */
module Backend {

  import opened Wrappers

  datatype Category = Necessity | NiceToHave

  /** The literal union `1 | 2 | 3`; 3 is the strongest desire. */
  type DesireLevel = d: int | 1 <= d <= 3 witness 1

  datatype Status = Wanted | Purchased | MaybeNotNeeded | NotNeeded

  /**
   * The parsed request body, typed as WishItem without `id` and `score`.
   * A JSON body can still carry those two keys; `suppliedId` and
   * `suppliedScore` hold them when it does.
   */
  datatype Draft = Draft(
    name: string,
    category: Category,
    desireLevel: DesireLevel,
    status: Status,
    reason: string,
    memo: string,
    suppliedId: Option<string>,
    suppliedScore: Option<real>)

  datatype WishItem = WishItem(
    id: string,
    name: string,
    category: Category,
    desireLevel: DesireLevel,
    status: Status,
    reason: string,
    memo: string,
    score: real)

  /** 1.5 for a necessity, 1.0 for anything else. */
  function CategoryCoefficient(c: Category): (k: real)
    ensures 1.0 <= k <= 1.5
  {
    if c == Necessity then 1.5 else 1.0
  }

  /** The closed status table: wanted 1.0, maybe_not_needed 0.1, purchased and not_needed 0. */
  function StatusCoefficient(s: Status): (k: real)
    ensures 0.0 <= k <= 1.0
  {
    match s
    case Wanted => 1.0
    case MaybeNotNeeded => 0.1
    case Purchased => 0.0
    case NotNeeded => 0.0
  }

  /** categoryCoefficient * desireLevel * statusCoefficient, unrounded. */
  function Score(c: Category, d: DesireLevel, s: Status): real
  {
    CategoryCoefficient(c) * (d as real) * StatusCoefficient(s)
  }

  /** The category table in tenths: 15 and 10. */
  function CategoryTenths(c: Category): int
  {
    match c
    case Necessity => 15
    case NiceToHave => 10
  }

  /** The status table in tenths: 10, 1, 0, 0. */
  function StatusTenths(s: Status): int
  {
    match s
    case Wanted => 10
    case MaybeNotNeeded => 1
    case Purchased => 0
    case NotNeeded => 0
  }

  /** An integer reference for the score: the score times 100. */
  function ScoreHundredths(c: Category, d: DesireLevel, s: Status): int
  {
    CategoryTenths(c) * d * StatusTenths(s)
  }

  /** The real-valued score and the integer table agree on every input. */
  lemma ScoreMatchesHundredths(c: Category, d: DesireLevel, s: Status)
    ensures Score(c, d, s) * 100.0 == ScoreHundredths(c, d, s) as real
  {
  }

  /** A resolved wish scores exactly 0, and only a resolved wish does. */
  lemma ScoreZeroIffResolved(c: Category, d: DesireLevel, s: Status)
    ensures Score(c, d, s) == 0.0 <==> s == Purchased || s == NotNeeded
  {
  }

  /** Every score lies between 0 and 4.5. */
  lemma ScoreBounds(c: Category, d: DesireLevel, s: Status)
    ensures 0.0 <= Score(c, d, s) <= 4.5
  {
  }

  /** The top of the range: a wanted necessity at desire 3 scores 4.5. */
  lemma ScoreMaximum()
    ensures Score(Necessity, 3, Wanted) == 4.5
    ensures forall c: Category, d: DesireLevel, s: Status :: Score(c, d, s) <= Score(Necessity, 3, Wanted)
  {
  }

  /**
   * The score is not rounded to one decimal: a maybe_not_needed necessity
   * at desire 1 scores 0.15.
   */
  lemma ScoreNotRounded()
    ensures Score(Necessity, 1, MaybeNotNeeded) == 0.15
  {
  }

  /** For a fixed category and status, more desire never lowers the score. */
  lemma ScoreMonotoneInDesire(c: Category, d1: DesireLevel, d2: DesireLevel, s: Status)
    requires d1 <= d2
    ensures Score(c, d1, s) <= Score(c, d2, s)
  {
  }

  /** A necessity never scores below a nice-to-have with the same desire and status. */
  lemma NecessityOutranksNiceToHave(d: DesireLevel, s: Status)
    ensures Score(NiceToHave, d, s) <= Score(Necessity, d, s)
    ensures Score(NiceToHave, d, s) < Score(Necessity, d, s) <==> s == Wanted || s == MaybeNotNeeded
  {
  }

  /**
   * The object `{ ...draft, id, score }`: every draft field as posted, then
   * the minted id and the computed score, which override any id or score
   * the body carried.
   */
  function NewItem(draft: Draft, id: string): (w: WishItem)
    ensures w.id == id
    ensures w.name == draft.name && w.category == draft.category && w.desireLevel == draft.desireLevel
    ensures w.status == draft.status && w.reason == draft.reason && w.memo == draft.memo
    ensures w.score == Score(w.category, w.desireLevel, w.status)
  {
    var score := Score(draft.category, draft.desireLevel, draft.status);
    WishItem(id, draft.name, draft.category, draft.desireLevel, draft.status, draft.reason, draft.memo, score)
  }

  /** The draft an item was built from, without client-supplied id or score. */
  function DraftOf(w: WishItem): Draft
  {
    Draft(w.name, w.category, w.desireLevel, w.status, w.reason, w.memo, None, None)
  }

  /** A stored item is well scored when its score is the score of its own fields. */
  predicate WellScored(w: WishItem)
  {
    w.score == Score(w.category, w.desireLevel, w.status)
  }

  /** A client-supplied id or score never reaches the created item. */
  lemma NewItemIgnoresSuppliedFields(draft: Draft, id: string, otherId: Option<string>, otherScore: Option<real>)
    ensures NewItem(draft, id) == NewItem(draft.(suppliedId := otherId, suppliedScore := otherScore), id)
  {
  }

  /** Building an item and taking its draft back loses only the supplied id and score. */
  lemma DraftRoundTrip(draft: Draft, id: string)
    ensures DraftOf(NewItem(draft, id)) == draft.(suppliedId := None, suppliedScore := None)
  {
  }

  /** Exactly the well-scored items are rebuilt unchanged from their own draft and id. */
  lemma NewItemRebuildsIffWellScored(w: WishItem)
    ensures NewItem(DraftOf(w), w.id) == w <==> WellScored(w)
  {
  }

  /**
   * What the worker keeps in WISH_LIST_KV: every key maps to a well-scored
   * item stored under its own id.
   */
  ghost predicate Consistent(m: map<string, WishItem>)
  {
    forall k :: k in m ==> m[k].id == k && WellScored(m[k])
  }

  /** Storing a newly created item under its id keeps the namespace consistent. */
  lemma PutNewItemKeepsConsistent(m: map<string, WishItem>, draft: Draft, id: string)
    requires Consistent(m)
    ensures Consistent(m[id := NewItem(draft, id)])
  {
  }

  /**
   * The KV namespace bound as WISH_LIST_KV; values are JSON strings in the
   * worker, here the items they serialise.
   */
  class WishListKv {

    var entries: map<string, WishItem>

    constructor ()
      ensures entries == map[]
    {
      entries := map[];
    }

    /** `put(key, value)`: the key now holds the value, whatever it held before. */
    method Put(key: string, value: WishItem)
      modifies this
      ensures entries == old(entries)[key := value]
    {
      entries := entries[key := value];
    }
  }

  /**
   * POST /items with the parsed draft and the id crypto.randomUUID() gave.
   * Returns the item the response carries.
   */
  method PostItems(kv: WishListKv, draft: Draft, id: string) returns (created: WishItem)
    modifies kv
    ensures created == NewItem(draft, id)
    ensures kv.entries == old(kv.entries)[id := created]
    ensures kv.entries.Keys == old(kv.entries).Keys + {id}
    ensures forall k :: k in old(kv.entries) && k != id ==> kv.entries[k] == old(kv.entries)[k]
    ensures id !in old(kv.entries) ==> |kv.entries| == |old(kv.entries)| + 1
    ensures Consistent(old(kv.entries)) ==> Consistent(kv.entries)
  {
    created := NewItem(draft, id);
    kv.Put(id, created);
    if Consistent(old(kv.entries)) {
      PutNewItemKeepsConsistent(old(kv.entries), draft, id);
    }
  }
}
