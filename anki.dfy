/** The flashcard deck: the SM-2 style review schedule and the card store with its reverse-card linkage. */
module Anki {
  import opened Common

  /** The easiness factor is kept in hundredths: 2.5 is 250 and the floor 1.3 is 130. */
  const InitialEasiness: int := 250
  const MinEasiness: int := 130

  datatype Card = Card(
    id: string,
    front: string,
    back: string,
    reverse: bool,
    easiness: int,      // hundredths
    interval: int,      // days
    repetitions: int,
    reviewDate: Day,
    createdDate: Day)

  /** The scheduling invariant of a card: EF at least 1.3, interval at least one day, repetitions not negative. */
  predicate WellFormed(c: Card) {
    c.easiness >= MinEasiness && c.interval >= 1 && c.repetitions >= 0
  }

  predicate AllWellFormed(cards: seq<Card>) {
    forall c :: c in cards ==> WellFormed(c)
  }

  /** No two stored cards share an id. */
  predicate UniqueIds(cards: seq<Card>) {
    forall i, j :: 0 <= i < j < |cards| ==> cards[i].id != cards[j].id
  }

  function Max(a: int, b: int): int { if a < b then b else a }

  // ---------------------------------------------------------------------------
  // The review schedule

  /** 2 to the power `n`. */
  function Pow2(n: nat): (r: nat)
    ensures r >= 1
  {
    if n == 0 then 1 else 2 * Pow2(n - 1)
  }

  lemma {:induction false} Pow2Grows(n: nat)
    ensures Pow2(n) > n
  {
    if n != 0 {
      Pow2Grows(n - 1);
    }
  }

  lemma {:induction false} Pow2Monotone(m: nat, n: nat)
    requires m <= n
    ensures Pow2(m) <= Pow2(n)
    decreases n - m
  {
    if m < n {
      Pow2Monotone(m, n - 1);
    }
  }

  /** The EF formula converts the integer `5 - rating` to a double. A magnitude of 2^1024 - 2^970 or
      more rounds past the largest double, and Python raises `OverflowError` instead. */
  predicate RatingOverflows(rating: int) {
    Abs(5 - rating) >= Pow2(1024) - Pow2(970)
  }

  function Abs(q: int): nat {
    if q < 0 then -q else q
  }

  /** Every rating whose distance from 5 is below 2^1023 converts, in particular every rating of the
      0-5 scale. */
  lemma {:induction false} ModerateRatingsConvert(rating: int)
    requires Abs(5 - rating) < Pow2(1023)
    ensures !RatingOverflows(rating)
  {
    Pow2Monotone(970, 1023);
    assert Pow2(1024) == 2 * Pow2(1023);
  }

  lemma ScaleRatingsConvert(rating: int)
    requires 0 <= rating <= 5
    ensures !RatingOverflows(rating)
  {
    Pow2Grows(1023);
    ModerateRatingsConvert(rating);
  }

  /** Change of the easiness factor, in hundredths, for a rating:
      0.1 - (5 - rating) * (0.08 + (5 - rating) * 0.02), exact in real arithmetic. */
  function EasinessDelta(rating: int): (d: int)
    ensures rating == 5 ==> d == 10
    ensures rating == 4 ==> d == 0
    ensures rating == 3 ==> d == -14
    ensures rating == 2 ==> d == -32
    ensures rating == 1 ==> d == -54
    ensures rating == 0 ==> d == -80
    ensures rating <= 4 ==> d <= 0
    ensures rating < 3 ==> d <= -32
  {
    var q := 5 - rating;
    assert q >= 1 ==> q * q >= q;
    10 - q * (8 + 2 * q)
  }

  /** Python's `round(n / d)` for `d > 0`: the nearest integer, a tie going to the even one. */
  function RoundHalfEven(n: int, d: int): (r: int)
    requires d > 0
    ensures -d <= 2 * (n - r * d) <= d
    ensures 2 * (n - r * d) == d || 2 * (n - r * d) == -d ==> r % 2 == 0
  {
    var q, m := n / d, n % d;
    assert n == q * d + m;
    assert (q + 1) * d == q * d + d;
    if 2 * m < d then q
    else if 2 * m > d then q + 1
    else if q % 2 == 0 then q
    else q + 1
  }

  /** The card after a review with `rating` on day `today` (the expression form of the update). */
  function Reviewed(c: Card, rating: int, today: Day): (r: Card)
    // only the four scheduling fields change
    ensures r.id == c.id && r.front == c.front && r.back == c.back
    ensures r.reverse == c.reverse && r.createdDate == c.createdDate
    // a failed recall restarts the learning sequence
    ensures rating < 3 ==> r.repetitions == 0 && r.interval == 1
    // a success extends the streak: 1 day, then 6 days, then interval x old EF rounded
    ensures rating >= 3 ==> r.repetitions == c.repetitions + 1
    ensures rating >= 3 && c.repetitions == 0 ==> r.interval == 1
    ensures rating >= 3 && c.repetitions == 1 ==> r.interval == 6
    ensures rating >= 3 && c.repetitions != 0 && c.repetitions != 1 ==>
      r.interval == RoundHalfEven(c.interval * c.easiness, 100)
    // EF moves by the rating's delta from its value before this review, but never below 1.3
    ensures r.easiness >= MinEasiness
    ensures r.easiness >= c.easiness + EasinessDelta(rating)
    ensures r.easiness == MinEasiness || r.easiness == c.easiness + EasinessDelta(rating)
    // due again `interval` days from today
    ensures r.reviewDate - today == r.interval
  {
    var interval :=
      if rating < 3 then 1
      else if c.repetitions == 0 then 1
      else if c.repetitions == 1 then 6
      else RoundHalfEven(c.interval * c.easiness, 100);
    var repetitions := if rating < 3 then 0 else c.repetitions + 1;
    c.(repetitions := repetitions,
       interval := interval,
       easiness := Max(MinEasiness, c.easiness + EasinessDelta(rating)),
       reviewDate := today + interval)
  }

  /** A review keeps the scheduling invariant: EF >= 1.3, interval >= 1, repetitions >= 0. */
  lemma ReviewKeepsWellFormed(c: Card, rating: int, today: Day)
    requires WellFormed(c)
    ensures WellFormed(Reviewed(c, rating, today))
  {
  }

  /** A successful review of a card with a streak of two or more never shortens its interval. */
  lemma SuccessNeverShortensInterval(c: Card, rating: int, today: Day)
    requires WellFormed(c) && rating >= 3 && c.repetitions >= 2
    ensures Reviewed(c, rating, today).interval >= c.interval
  {
    var n := c.interval * c.easiness;
    assert n >= c.interval * MinEasiness;
    var r := RoundHalfEven(n, 100);
    assert 100 * r >= n - 50 > 100 * (c.interval - 1);
  }

  /** A sequence of reviews, each given as (rating, day). */
  function ReviewAll(c: Card, reviews: seq<(int, Day)>): Card
    decreases |reviews|
  {
    if |reviews| == 0 then c
    else ReviewAll(Reviewed(c, reviews[0].0, reviews[0].1), reviews[1..])
  }

  /** After any number of reviews, EF >= 1.3, interval >= 1 and repetitions >= 0 still hold. */
  lemma {:induction false} ReviewsKeepWellFormed(c: Card, reviews: seq<(int, Day)>)
    requires WellFormed(c)
    ensures WellFormed(ReviewAll(c, reviews))
    decreases |reviews|
  {
    if |reviews| != 0 {
      ReviewKeepsWellFormed(c, reviews[0].0, reviews[0].1);
      ReviewsKeepWellFormed(Reviewed(c, reviews[0].0, reviews[0].1), reviews[1..]);
    }
  }

  /** A fresh card reviewed 5, 4, 5 on days d, d+1, d+7: intervals 1, 6 and round(6 x 2.6) = 16. */
  lemma FirstThreeSuccesses(id: string, front: string, back: string, d: Day)
    ensures var c1 := Reviewed(NewCard(id, front, back, false, d), 5, d);
            var c2 := Reviewed(c1, 4, d + 1);
            var c3 := Reviewed(c2, 5, d + 7);
            && c1.repetitions == 1 && c1.interval == 1 && c1.reviewDate == d + 1
            && c2.repetitions == 2 && c2.interval == 6 && c2.reviewDate == d + 7
            && c3.repetitions == 3 && c3.interval == 16 && c3.reviewDate == d + 23
  {
  }

  /** Two successful reviews on the same day do not give the same state: each one advances the streak. */
  lemma ReviewIsNotIdempotent(c: Card, rating: int, today: Day)
    requires rating >= 3
    ensures var once := Reviewed(c, rating, today);
            Reviewed(once, rating, today).repetitions == once.repetitions + 1
  {
  }

  // ---------------------------------------------------------------------------
  // Queries over the stored cards

  /** Index of the first card with the given id. */
  function CardIndex(cards: seq<Card>, id: string): (r: Option<nat>)
    ensures r.Some? ==> r.value < |cards| && cards[r.value].id == id
    ensures r.Some? ==> forall k :: 0 <= k < r.value ==> cards[k].id != id
    ensures r.None? ==> forall k :: 0 <= k < |cards| ==> cards[k].id != id
  {
    Find(cards, (c: Card) => c.id == id)
  }

  /** `get_card`: the first card with the id, or None. */
  function GetCard(cards: seq<Card>, id: string): (r: Option<Card>)
    ensures r.None? <==> forall c :: c in cards ==> c.id != id
    ensures r.Some? ==> r.value in cards && r.value.id == id
    ensures r.Some? ==> exists i :: 0 <= i < |cards| && cards[i] == r.value && forall k :: 0 <= k < i ==> cards[k].id != id
  {
    match CardIndex(cards, id)
    case None => None
    case Some(i) => Some(cards[i])
  }

  /** A card is due when its review date is today or earlier. */
  predicate IsDue(c: Card, today: Day) { c.reviewDate <= today }

  /** `get_due_cards`: the cards due today, in stored order. */
  function DueCards(cards: seq<Card>, today: Day): (r: seq<Card>)
    ensures forall k :: 0 <= k < |r| ==> r[k] in cards && IsDue(r[k], today)
    ensures forall k :: 0 <= k < |cards| && IsDue(cards[k], today) ==> cards[k] in r
  {
    FilterElements(cards, (c: Card) => IsDue(c, today));
    Filter(cards, (c: Card) => IsDue(c, today))
  }

  /** The due cards of two stretches of the deck are those of the first followed by those of the second. */
  lemma DueCardsKeepOrder(a: seq<Card>, b: seq<Card>, today: Day)
    ensures DueCards(a + b, today) == DueCards(a, today) + DueCards(b, today)
  {
    FilterAppend(a, b, (c: Card) => IsDue(c, today));
  }

  // ---------------------------------------------------------------------------
  // Store operations as functions of the stored list

  /** A new card as `create_card` writes it: EF 2.5, interval 1, no repetitions, due the day it is made. */
  function NewCard(id: string, front: string, back: string, reverse: bool, today: Day): Card {
    Card(id, front, back, reverse, InitialEasiness, 1, 0, today, today)
  }

  /** The cards `create_card` appends: the card, then its swapped copy when `reverse` is set. */
  function CreatedCards(front: string, back: string, reverse: bool := false, today: Day, id: string, reverseId: string): (r: seq<Card>)
    ensures |r| == if reverse then 2 else 1
    ensures r[0].id == id && r[0].front == front && r[0].back == back && r[0].reverse == reverse
    ensures reverse ==> r[1].id == reverseId && r[1].front == back && r[1].back == front && !r[1].reverse
    ensures forall c :: c in r ==> WellFormed(c) && c.reviewDate == today && c.createdDate == today
    ensures forall c :: c in r ==> c.easiness == InitialEasiness && c.interval == 1 && c.repetitions == 0
  {
    [NewCard(id, front, back, reverse, today)]
      + (if reverse then [NewCard(reverseId, back, front, false, today)] else [])
  }

  /** `b` holds the text of `a` swapped. */
  predicate SwappedText(b: Card, a: Card) {
    b.front == a.back && b.back == a.front
  }

  /** Some other card of the store holds the text of `a` swapped. */
  predicate HasPair(cards: seq<Card>, a: Card) {
    exists k :: 0 <= k < |cards| && cards[k].id != a.id && SwappedText(cards[k], a)
  }

  /** Creating a card with fresh ids keeps ids unique, keeps every card well formed, and a reversed
      card gets its pair. */
  lemma CreateKeepsStore(cards: seq<Card>, front: string, back: string, reverse: bool, today: Day, id: string, reverseId: string)
    requires UniqueIds(cards) && AllWellFormed(cards)
    requires forall c :: c in cards ==> c.id != id && c.id != reverseId
    requires reverse ==> id != reverseId
    ensures var r := cards + CreatedCards(front, back, reverse, today, id, reverseId);
            UniqueIds(r) && AllWellFormed(r) && (reverse ==> HasPair(r, r[|cards|]))
  {
    var n := CreatedCards(front, back, reverse, today, id, reverseId);
    var r := cards + n;
    forall i, j | 0 <= i < j < |r| ensures r[i].id != r[j].id {
      if j >= |cards| {
        assert r[j] == n[j - |cards|];
        if i < |cards| {
          assert r[i] in cards;
        }
      }
    }
    if reverse {
      assert r[|cards| + 1] == n[1];
    }
  }

  /** Whether `process_card_review` fails with `OverflowError` before the file is saved: the rating
      cannot be converted to a double in the EF formula, or the next review date lies past 9999-12-31. */
  predicate ReviewOverflows(cards: seq<Card>, id: string, rating: int, today: Day) {
    match CardIndex(cards, id)
    case None => false
    case Some(i) => RatingOverflows(rating) || Reviewed(cards[i], rating, today).reviewDate > MaxDay
  }

  /** The list after `process_card_review`: the first card with the id reviewed, nothing else touched;
      when the rating or the next date cannot be represented, nothing is saved. */
  function CardReviewed(cards: seq<Card>, id: string, rating: int, today: Day): (r: seq<Card>)
    ensures |r| == |cards|
    ensures CardIndex(cards, id).None? ==> r == cards
    ensures ReviewOverflows(cards, id, rating, today) ==> r == cards
    ensures forall k :: 0 <= k < |cards| && CardIndex(cards, id) != Some(k) ==> r[k] == cards[k]
    ensures CardIndex(cards, id).Some? && !ReviewOverflows(cards, id, rating, today) ==>
      var i := CardIndex(cards, id).value;
      r[i] == Reviewed(cards[i], rating, today) && r[i].reviewDate <= MaxDay && !RatingOverflows(rating)
  {
    match CardIndex(cards, id)
    case None => cards
    case Some(i) =>
      var reviewed := Reviewed(cards[i], rating, today);
      if RatingOverflows(rating) || reviewed.reviewDate > MaxDay then cards else cards[i := reviewed]
  }

  /** Reviewing a card keeps ids unique and every card well formed. */
  lemma ReviewKeepsStore(cards: seq<Card>, id: string, rating: int, today: Day)
    requires UniqueIds(cards) && AllWellFormed(cards)
    ensures UniqueIds(CardReviewed(cards, id, rating, today))
    ensures AllWellFormed(CardReviewed(cards, id, rating, today))
  {
    var r := CardReviewed(cards, id, rating, today);
    match CardIndex(cards, id)
    case None =>
    case Some(i) =>
      ReviewKeepsWellFormed(cards[i], rating, today);
      var reviewed := Reviewed(cards[i], rating, today);
      if !RatingOverflows(rating) && reviewed.reviewDate <= MaxDay {
        assert r == cards[i := reviewed];
        forall x | x in r ensures WellFormed(x) {
          var k :| 0 <= k < |r| && r[k] == x;
        }
      }
  }

  /** The cards of `cs` without the given id: `[c for c in cards if c["id"] != id]`. */
  function WithoutId(cs: seq<Card>, id: string): seq<Card> {
    Filter(cs, IdIsNot(id))
  }

  function IdIsNot(id: string): Card -> bool {
    (c: Card) => c.id != id
  }

  function IdNotIn(ids: set<string>): Card -> bool {
    (c: Card) => c.id !in ids
  }

  /** The cards of `cs` whose id is not in `ids`. */
  function WithoutIds(cs: seq<Card>, ids: set<string>): seq<Card> {
    Filter(cs, IdNotIn(ids))
  }

  /** Ids of the cards of `cs` that hold the text of `a` swapped. */
  function PairIds(cs: seq<Card>, a: Card): (r: set<string>)
    ensures forall k :: 0 <= k < |cs| && SwappedText(cs[k], a) ==> cs[k].id in r
    ensures forall x :: x in r ==> exists k :: 0 <= k < |cs| && SwappedText(cs[k], a) && cs[k].id == x
  {
    if |cs| == 0 then {}
    else
      var init := cs[..|cs| - 1];
      var rest := PairIds(init, a);
      assert forall k :: 0 <= k < |init| ==> init[k] == cs[k];
      rest + (if SwappedText(cs[|cs| - 1], a) then {cs[|cs| - 1].id} else {})
  }

  /** The list after `delete_card`: the card's id removed and, when the card is reversed, the ids of all
      cards holding its text swapped removed too. */
  function CardDeleted(cards: seq<Card>, id: string): (r: seq<Card>)
    ensures CardIndex(cards, id).None? ==> r == cards
    ensures forall k :: 0 <= k < |r| ==> r[k] in cards && r[k].id != id
    ensures CardIndex(cards, id).Some? && !cards[CardIndex(cards, id).value].reverse ==> r == WithoutId(cards, id)
  {
    match CardIndex(cards, id)
    case None => cards
    case Some(i) =>
      var rest := WithoutId(cards, id);
      FilterElements(cards, IdIsNot(id));
      FilterElements(rest, IdNotIn(PairIds(rest, cards[i])));
      if cards[i].reverse then WithoutIds(rest, PairIds(rest, cards[i])) else rest
  }

  /** With unique ids, deleting a card keeps exactly the other cards that are not its swapped copy
      (when it is reversed), in stored order. */
  lemma DeleteRemovesCardAndPair(cards: seq<Card>, id: string)
    requires UniqueIds(cards)
    requires CardIndex(cards, id).Some?
    ensures var a := cards[CardIndex(cards, id).value];
            var r := CardDeleted(cards, id);
            && (forall k :: 0 <= k < |r| ==> r[k].id != id && !(a.reverse && SwappedText(r[k], a)))
            && (forall k :: 0 <= k < |cards| && cards[k].id != id && !(a.reverse && SwappedText(cards[k], a)) ==> cards[k] in r)
  {
    var a := cards[CardIndex(cards, id).value];
    var r := CardDeleted(cards, id);
    var rest := WithoutId(cards, id);
    FilterElements(cards, IdIsNot(id));
    if a.reverse {
      var ids := PairIds(rest, a);
      FilterElements(rest, IdNotIn(ids));
      forall k | 0 <= k < |r| ensures !SwappedText(r[k], a) {
        assert r[k] in rest;
        var j :| 0 <= j < |rest| && rest[j] == r[k];
        assert r[k].id !in ids;
      }
      forall k | 0 <= k < |cards| && cards[k].id != id && !SwappedText(cards[k], a)
        ensures cards[k] in r
      {
        var c := cards[k];
        assert c in rest;

      }
    }
  }

  /** Deleting keeps ids unique and every card well formed. */
  lemma DeleteKeepsStore(cards: seq<Card>, id: string)
    requires UniqueIds(cards) && AllWellFormed(cards)
    ensures UniqueIds(CardDeleted(cards, id)) && AllWellFormed(CardDeleted(cards, id))
  {
    var r := CardDeleted(cards, id);
    forall x | x in r ensures x in cards {
      var k :| 0 <= k < |r| && r[k] == x;
    }
    match CardIndex(cards, id)
    case None =>
    case Some(i) =>
      var key := (c: Card) => c.id;
      var rest := WithoutId(cards, id);
      FilterKeepsDistinct(cards, IdIsNot(id), key);
      assert UniqueIds(rest);
      if cards[i].reverse {
        FilterKeepsDistinct(rest, IdNotIn(PairIds(rest, cards[i])), key);
        assert r == WithoutIds(rest, PairIds(rest, cards[i]));
      }
  }

  /** One step of the scan in `delete_card`: removing the id of the next swapped card of the snapshot. */
  lemma PairRemovalStep(snapshot: seq<Card>, k: nat, a: Card)
    requires k < |snapshot|
    ensures var before := WithoutIds(snapshot, PairIds(snapshot[..k], a));
            WithoutIds(snapshot, PairIds(snapshot[..k + 1], a))
              == if SwappedText(snapshot[k], a) then WithoutId(before, snapshot[k].id) else before
  {
    var ids := PairIds(snapshot[..k], a);
    assert snapshot[..k + 1][..k] == snapshot[..k];
    if SwappedText(snapshot[k], a) {
      assert PairIds(snapshot[..k + 1], a) == ids + {snapshot[k].id};
      FilterFilter(snapshot, IdNotIn(ids), IdIsNot(snapshot[k].id), IdNotIn(ids + {snapshot[k].id}));
    } else {
      assert PairIds(snapshot[..k + 1], a) == ids;
    }
  }

  /** The scan of `delete_card` over a snapshot of the list: each card holding the text of `a` swapped
      has its id removed from the list. */
  method RemovePairsOf(cards: seq<Card>, a: Card) returns (data: seq<Card>)
    ensures data == WithoutIds(cards, PairIds(cards, a))
  {
    data := cards;
    FilterKeepsAll(cards, IdNotIn({}));
    var k := 0;
    while k < |cards|
      invariant 0 <= k <= |cards|
      invariant data == WithoutIds(cards, PairIds(cards[..k], a))
    {
      var c := cards[k];
      PairRemovalStep(cards, k, a);
      if c.front == a.back && c.back == a.front {
        data := WithoutId(data, c.id);
      }
      k := k + 1;
    }
    assert cards[..k] == cards;
  }

  // ---------------------------------------------------------------------------
  // Editing a card

  /** Index of the first card holding `front`/`back` swapped: the pair search of `update_card`. */
  function PairIndex(cards: seq<Card>, front: string, back: string): (r: Option<nat>)
    ensures r.Some? ==> r.value < |cards| && cards[r.value].front == back && cards[r.value].back == front
    ensures r.Some? ==> forall k :: 0 <= k < r.value ==> !(cards[k].front == back && cards[k].back == front)
    ensures r.None? ==> forall k :: 0 <= k < |cards| ==> !(cards[k].front == back && cards[k].back == front)
  {
    Find(cards, (c: Card) => c.front == back && c.back == front)
  }

  /** The list `update_card` saves. The card's text and flag are overwritten first, so its pair is searched
      with the NEW text; the reverse card that `create_card` saves when the flag is switched on is
      overwritten by this list, so switching the flag on adds no card. */
  function CardUpdated(cards: seq<Card>, id: string, front: string, back: string, reverse: bool := false): (r: seq<Card>)
    ensures |r| <= |cards|
    ensures CardIndex(cards, id).None? ==> r == cards
    // with the flag on at the end, or a card that was not reversed, only the edited card changes: a pair
    // found with the new text already holds the text the re-text writes
    ensures CardIndex(cards, id).Some? && (reverse || !cards[CardIndex(cards, id).value].reverse) ==>
      var i := CardIndex(cards, id).value;
      r == cards[i := cards[i].(front := front, back := back, reverse := reverse)]
    // unticking a reversed card removes the id of the first card of the edited list that holds the new
    // text swapped (the card itself when front equals back), and nothing when no card does
    ensures CardIndex(cards, id).Some? && !reverse && cards[CardIndex(cards, id).value].reverse ==>
      var i := CardIndex(cards, id).value;
      var data := cards[i := cards[i].(front := front, back := back, reverse := reverse)];
      && (PairIndex(data, front, back).None? ==> r == data)
      && (PairIndex(data, front, back).Some? ==> r == WithoutId(data, data[PairIndex(data, front, back).value].id))
  {
    match CardIndex(cards, id)
    case None => cards
    case Some(i) =>
      var wasReverse := cards[i].reverse;
      var data := cards[i := cards[i].(front := front, back := back, reverse := reverse)];
      var pair := if wasReverse then PairIndex(data, front, back) else None;
      if !reverse && wasReverse && pair.Some? then WithoutId(data, data[pair.value].id)
      else if reverse && wasReverse && pair.Some? then
        var j := pair.value;
        assert data[j].(front := back, back := front) == data[j];
        data[j := data[j].(front := back, back := front)]
      else data
  }

  /** Removing an id no card carries changes nothing. */
  lemma WithoutAbsentId(t: seq<Card>, x: string)
    requires forall k :: 0 <= k < |t| ==> t[k].id != x
    ensures WithoutId(t, x) == t
  {
    forall c | c in t ensures IdIsNot(x)(c) {
      var k :| 0 <= k < |t| && t[k] == c;
    }
    FilterKeepsAll(t, IdIsNot(x));
  }

  /** With unique ids, the cards before position `j` do not carry the id of the card at `j`. */
  lemma WithoutIdKeepsBefore(s: seq<Card>, j: nat)
    requires UniqueIds(s) && j < |s|
    ensures WithoutId(s[..j], s[j].id) == s[..j]
  {
    WithoutAbsentId(s[..j], s[j].id);
  }

  /** With unique ids, the cards after position `j` do not carry the id of the card at `j`. */
  lemma WithoutIdKeepsAfter(s: seq<Card>, j: nat)
    requires UniqueIds(s) && j < |s|
    ensures WithoutId(s[j + 1..], s[j].id) == s[j + 1..]
  {
    var after := s[j + 1..];
    assert forall k :: 0 <= k < |after| ==> after[k] == s[j + 1 + k];
    WithoutAbsentId(after, s[j].id);
  }

  /** With unique ids, removing the id of the card at `j` removes that card alone. */
  lemma WithoutUniqueId(s: seq<Card>, j: nat)
    requires UniqueIds(s) && j < |s|
    ensures WithoutId(s, s[j].id) == s[..j] + s[j + 1..]
  {
    WithoutIdKeepsBefore(s, j);
    WithoutIdKeepsAfter(s, j);
    assert s == s[..j] + [s[j]] + s[j + 1..];
    FilterDropsOne(s[..j], s[j], s[j + 1..], IdIsNot(s[j].id));
  }

  /** Switching the flag on, or keeping it on, saves only the edited card: no copy is created and no copy
      is re-texted, so the card has a copy afterwards exactly when another card already held its new text
      swapped. */
  lemma FlagOnLeavesOtherCards(cards: seq<Card>, id: string, front: string, back: string)
    requires CardIndex(cards, id).Some?
    ensures var i := CardIndex(cards, id).value;
            var edited := cards[i].(front := front, back := back, reverse := true);
            var r := CardUpdated(cards, id, front, back, true);
            && r == cards[i := edited]
            && (HasPair(r, edited) <==> exists k :: 0 <= k < |cards| && k != i && cards[k].id != id && SwappedText(cards[k], edited))
  {
    var i := CardIndex(cards, id).value;
    var edited := cards[i].(front := front, back := back, reverse := true);
    var r := CardUpdated(cards, id, front, back, true);
    if HasPair(r, edited) {
      var k :| 0 <= k < |r| && r[k].id != edited.id && SwappedText(r[k], edited);
      assert k != i && r[k] == cards[k];
    }
    if exists k :: 0 <= k < |cards| && k != i && cards[k].id != id && SwappedText(cards[k], edited) {
      var k :| 0 <= k < |cards| && k != i && cards[k].id != id && SwappedText(cards[k], edited);
      assert r[k] == cards[k];
    }
  }

  /** With unique ids, unticking a reversed card whose pair search succeeds removes exactly one card: the
      first card of the edited list that holds the new text swapped. */
  lemma UntickRemovesOneCard(cards: seq<Card>, id: string, front: string, back: string)
    requires UniqueIds(cards)
    requires CardIndex(cards, id).Some? && cards[CardIndex(cards, id).value].reverse
    requires var i := CardIndex(cards, id).value;
             PairIndex(cards[i := cards[i].(front := front, back := back, reverse := false)], front, back).Some?
    ensures var i := CardIndex(cards, id).value;
            var data := cards[i := cards[i].(front := front, back := back, reverse := false)];
            var j := PairIndex(data, front, back).value;
            CardUpdated(cards, id, front, back, false) == data[..j] + data[j + 1..]
  {
    var i := CardIndex(cards, id).value;
    var data := cards[i := cards[i].(front := front, back := back, reverse := false)];
    assert forall k :: 0 <= k < |data| ==> data[k].id == cards[k].id;
    assert UniqueIds(data);
    WithoutUniqueId(data, PairIndex(data, front, back).value);
  }

  /** With unique ids, unticking a reversed card whose front equals its back, when no card before it
      holds that text, removes the card itself and keeps every other card, its copy included. */
  lemma UntickingSymmetricCardRemovesItself(cards: seq<Card>, id: string, text: string)
    requires UniqueIds(cards)
    requires CardIndex(cards, id).Some? && cards[CardIndex(cards, id).value].reverse
    requires forall k :: 0 <= k < CardIndex(cards, id).value ==> !(cards[k].front == text && cards[k].back == text)
    ensures var i := CardIndex(cards, id).value;
            CardUpdated(cards, id, text, text, false) == cards[..i] + cards[i + 1..]
  {
    var i := CardIndex(cards, id).value;
    var data := cards[i := cards[i].(front := text, back := text, reverse := false)];
    assert PairIndex(data, text, text) == Some(i) by {
      assert data[i].front == text && data[i].back == text;
      assert forall k :: 0 <= k < i ==> data[k] == cards[k];
      assert forall k :: 0 <= k < i ==> !(data[k].front == text && data[k].back == text);
    }
    UntickRemovesOneCard(cards, id, text, text);
    assert data[..i] == cards[..i] && data[i + 1..] == cards[i + 1..];
  }

  /** Editing changes only text and reverse flags and removes at most one card, so ids stay unique and
      every card stays well formed. */
  lemma UpdateKeepsStore(cards: seq<Card>, id: string, front: string, back: string, reverse: bool)
    requires UniqueIds(cards) && AllWellFormed(cards)
    ensures UniqueIds(CardUpdated(cards, id, front, back, reverse))
    ensures AllWellFormed(CardUpdated(cards, id, front, back, reverse))
  {
    var r := CardUpdated(cards, id, front, back, reverse);
    match CardIndex(cards, id)
    case None =>
    case Some(i) =>
      var data := cards[i := cards[i].(front := front, back := back, reverse := reverse)];
      forall k | 0 <= k < |data| ensures data[k].id == cards[k].id && WellFormed(data[k]) {
        assert cards[k] in cards;
      }
      assert UniqueIds(data);
      assert AllWellFormed(data) by {
        forall x | x in data ensures WellFormed(x) {
          var k :| 0 <= k < |data| && data[k] == x;
        }
      }
      var pair := if cards[i].reverse then PairIndex(data, front, back) else None;
      if !reverse && cards[i].reverse && pair.Some? {
        assert r == WithoutId(data, data[pair.value].id);
        FilterKeepsDistinct(data, IdIsNot(data[pair.value].id), (c: Card) => c.id);
        forall x | x in r ensures WellFormed(x) {
          FilterMember(data, IdIsNot(data[pair.value].id), x);
        }
      } else if reverse && cards[i].reverse && pair.Some? {
        var j := pair.value;
        assert r == data[j := data[j].(front := back, back := front)];
        assert forall k :: 0 <= k < |r| ==> r[k].id == data[k].id && WellFormed(r[k]);
        forall x | x in r ensures WellFormed(x) {
          var k :| 0 <= k < |r| && r[k] == x;
        }
      }
  }

  /** Switching the reverse flag on for an existing card leaves it without a swapped copy. */
  lemma EnablingReverseLosesPair()
    ensures var cards := [NewCard("a", "x", "y", false, 0)];
            var r := CardUpdated(cards, "a", "x", "y", true);
            r == [cards[0].(reverse := true)] && !HasPair(r, r[0])
  {
  }

  /** Editing the text of a reversed card leaves its old pair untouched and gives it no new one. */
  lemma EditingTextOrphansPair()
    ensures var a := NewCard("a", "x", "y", true, 0);
            var b := NewCard("b", "y", "x", false, 0);
            var r := CardUpdated([a, b], "a", "u", "v", true);
            r == [a.(front := "u", back := "v"), b] && !HasPair(r, r[0])
  {
  }

  /** Switching the flag off on a reversed card whose front equals its back deletes the card itself:
      the pair search finds the card before its copy. */
  lemma UntickingSymmetricCardDeletesIt()
    ensures var a := NewCard("a", "x", "x", true, 0);
            var b := NewCard("b", "x", "x", false, 0);
            CardUpdated([a, b], "a", "x", "x", false) == [b]
  {
    var a := NewCard("a", "x", "x", true, 0);
    var b := NewCard("b", "x", "x", false, 0);
    var data := [a, b][0 := a.(reverse := false)];
    assert data == [a.(reverse := false), b];
    assert PairIndex(data, "x", "x") == Some(0);
    assert data[1..] == [b] && [b][1..] == [];
    assert !IdIsNot("a")(data[0]) && IdIsNot("a")(b);
    assert Filter([b], IdIsNot("a")) == [b] + Filter([], IdIsNot("a")) == [b];
    assert WithoutId(data, "a") == Filter(data[1..], IdIsNot("a"));
  }

  /** Index of the first card other than `a` that holds the text of `a` swapped. */
  function OtherPairIndex(cards: seq<Card>, a: Card): (r: Option<nat>)
    ensures r.Some? ==> r.value < |cards| && cards[r.value].id != a.id && SwappedText(cards[r.value], a)
    ensures r.Some? ==> forall k :: 0 <= k < r.value ==> !(cards[k].id != a.id && SwappedText(cards[k], a))
    ensures r.None? ==> forall k :: 0 <= k < |cards| ==> !(cards[k].id != a.id && SwappedText(cards[k], a))
  {
    Find(cards, (c: Card) => c.id != a.id && SwappedText(c, a))
  }

  /** The evidently intended edit: the pair is looked up with the card's OLD text and never is the card
      itself; it is re-texted when the flag stays on, created when there is none, and removed when the
      flag goes off. */
  function CardUpdatedIntended(cards: seq<Card>, id: string, front: string, back: string, reverse: bool,
                               today: Day, pairId: string): (r: seq<Card>)
    ensures CardIndex(cards, id).None? ==> r == cards
  {
    match CardIndex(cards, id)
    case None => cards
    case Some(i) =>
      var was := cards[i];
      var data := cards[i := was.(front := front, back := back, reverse := reverse)];
      var pair := if was.reverse then OtherPairIndex(cards, was) else None;
      if reverse then
        if pair.Some? then data[pair.value := data[pair.value].(front := back, back := front)]
        else data + [NewCard(pairId, back, front, false, today)]
      else if pair.Some? then WithoutId(data, data[pair.value].id)
      else data
  }

  /** The intended edit keeps the edited card, and a card flagged reverse has its swapped copy. */
  lemma UpdateIntendedKeepsPair(cards: seq<Card>, id: string, front: string, back: string, reverse: bool,
                                today: Day, pairId: string)
    requires CardIndex(cards, id).Some?
    requires pairId != id
    ensures var edited := cards[CardIndex(cards, id).value].(front := front, back := back, reverse := reverse);
            var r := CardUpdatedIntended(cards, id, front, back, reverse, today, pairId);
            edited in r && (reverse ==> HasPair(r, edited))
  {
    var i := CardIndex(cards, id).value;
    var was := cards[i];
    var edited := was.(front := front, back := back, reverse := reverse);
    var data := cards[i := edited];
    var r := CardUpdatedIntended(cards, id, front, back, reverse, today, pairId);
    var pair := if was.reverse then OtherPairIndex(cards, was) else None;
    if reverse {
      if pair.Some? {
        var j := pair.value;
        assert j != i;
        assert r[i] == edited;
        assert r[j].id != edited.id && SwappedText(r[j], edited);
      } else {
        assert r[i] == edited;
        assert r[|data|].id != edited.id && SwappedText(r[|data|], edited);
      }
    } else if pair.Some? {
      var j := pair.value;
      assert j != i && data[j] == cards[j];
      assert data[i] == edited && IdIsNot(data[j].id)(data[i]);
      FilterMember(data, IdIsNot(data[j].id), edited);
    } else {
      assert data[i] == edited;
    }
  }

  /** With unique ids, the intended edit that clears the flag of a reversed card removes exactly its
      swapped copy (found by the card's old text) and keeps every other card, the edited one included. */
  lemma UntickIntendedRemovesPair(cards: seq<Card>, id: string, front: string, back: string, today: Day,
                                  pairId: string)
    requires UniqueIds(cards)
    requires CardIndex(cards, id).Some? && cards[CardIndex(cards, id).value].reverse
    requires OtherPairIndex(cards, cards[CardIndex(cards, id).value]).Some?
    ensures var i := CardIndex(cards, id).value;
            var data := cards[i := cards[i].(front := front, back := back, reverse := false)];
            var j := OtherPairIndex(cards, cards[i]).value;
            && j != i
            && CardUpdatedIntended(cards, id, front, back, false, today, pairId) == data[..j] + data[j + 1..]
  {
    var i := CardIndex(cards, id).value;
    var data := cards[i := cards[i].(front := front, back := back, reverse := false)];
    var j := OtherPairIndex(cards, cards[i]).value;
    assert j != i;
    assert forall k :: 0 <= k < |data| ==> data[k].id == cards[k].id;
    assert UniqueIds(data);
    WithoutUniqueId(data, j);
  }

  // ---------------------------------------------------------------------------
  // The store

  /** The card file, held in memory: `load_anki_data` reads `cards`, `save_anki_data` assigns it. */
  class CardStore {
    /** The stored cards in insertion order. */
    var cards: seq<Card>

    /** A missing or unreadable file loads as an empty deck. */
    constructor ()
      ensures cards == []
    {
      cards := [];
    }

    /** `create_card`: appends the card and, when `reverse` is set, its swapped copy; `id` and
        `reverseId` stand for the generated uuids and `today` for the current date. */
    method CreateCard(front: string, back: string, reverse: bool := false, today: Day, id: string, reverseId: string)
      returns (cardId: string)
      modifies this
      ensures cardId == id
      ensures cards == old(cards) + CreatedCards(front, back, reverse, today, id, reverseId)
    {
      var data := cards;
      data := data + [NewCard(id, front, back, reverse, today)];
      if reverse {
        data := data + [NewCard(reverseId, back, front, false, today)];
      }
      cards := data;
      cardId := id;
    }

    /** `update_card`, step by step: the edit is made on a loaded copy, `create_card` saves its own
        copy when the flag is switched on, and saving the edited copy then overwrites it. */
    method UpdateCard(id: string, front: string, back: string, reverse: bool := false, today: Day, pairId: string)
      modifies this
      ensures cards == CardUpdated(old(cards), id, front, back, reverse)
    {
      var data := cards;
      var found := CardIndex(data, id);
      if found.Some? {
        var i := found.value;
        var wasReverse := data[i].reverse;
        data := data[i := data[i].(front := front, back := back, reverse := reverse)];
        var pair: Option<nat> := None;
        if wasReverse {
          var j := 0;
          while j < |data|
            invariant 0 <= j <= |data|
            invariant pair == None
            invariant forall k :: 0 <= k < j ==> !(data[k].front == back && data[k].back == front)
          {
            if data[j].front == back && data[j].back == front {
              pair := Some(j);
              break;
            }
            j := j + 1;
          }
          assert pair == PairIndex(data, front, back);
        }
        if reverse && !wasReverse {
          var _ := CreateCard(back, front, false, today, pairId, pairId);
        } else if !reverse && wasReverse && pair.Some? {
          data := WithoutId(data, data[pair.value].id);
        } else if reverse && wasReverse && pair.Some? {
          var j := pair.value;
          data := data[j := data[j].(front := back, back := front)];
        }
        cards := data;
      }
    }

    /** `delete_card`: removes the card's id and, for a reversed card, the id of every remaining card
        that holds its text swapped, scanning a snapshot of the list. */
    method DeleteCard(id: string)
      modifies this
      ensures cards == CardDeleted(old(cards), id)
    {
      var data := cards;
      var found := CardIndex(data, id);
      if found.Some? {
        var card := data[found.value];
        data := WithoutId(data, id);
        if card.reverse {
          data := RemovePairsOf(data, card);
        }
        assert data == CardDeleted(old(cards), id);
        cards := data;
      }
    }

    /** `process_card_review`: the SM-2 update applied field by field to the first card with the id. */
    method ProcessCardReview(id: string, rating: int, today: Day) returns (overflow: bool)
      modifies this
      ensures overflow == ReviewOverflows(old(cards), id, rating, today)
      ensures cards == CardReviewed(old(cards), id, rating, today)
    {
      overflow := false;
      var data := cards;
      var found := CardIndex(data, id);
      if found.Some? {
        var i := found.value;
        var card := data[i];
        if rating < 3 {
          card := card.(repetitions := 0, interval := 1);
        } else {
          if card.repetitions == 0 {
            card := card.(interval := 1);
          } else if card.repetitions == 1 {
            card := card.(interval := 6);
          } else {
            card := card.(interval := RoundHalfEven(card.interval * card.easiness, 100));
          }
          card := card.(repetitions := card.repetitions + 1);
        }
        if RatingOverflows(rating) {
          overflow := true;
          return;
        }
        card := card.(easiness := Max(MinEasiness, card.easiness + EasinessDelta(rating)));
        if today + card.interval > MaxDay {
          assert Reviewed(data[i], rating, today).reviewDate == today + card.interval;
          overflow := true;
          return;
        }
        card := card.(reviewDate := today + card.interval);
        assert card == Reviewed(data[i], rating, today);
        data := data[i := card];
        cards := data;
      }
    }
  }
}
