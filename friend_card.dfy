/**
 * The friend card: a background gradient chosen by rating band, and the choice between
 * the loading placeholder, the error box and the statistics card.
 */
module FriendCard {
  import opened Wrappers
  import Seqs
  import Helper

  const Gray: string := "linear-gradient(135deg, #2d2d2d 0%, #1a1a1a 50%, #0a0a0a 100%)"
  const Green: string := "linear-gradient(135deg, #1a4d1a 0%, #0d2d0d 50%, #051405 100%)"
  const Cyan: string := "linear-gradient(135deg, #1a4d4d 0%, #0d2d2d 50%, #051414 100%)"
  const Blue: string := "linear-gradient(135deg, #1a1a4d 0%, #0d0d2d 50%, #050514 100%)"
  const Purple: string := "linear-gradient(135deg, #4d1a4d 0%, #2d0d2d 50%, #140514 100%)"
  const Orange: string := "linear-gradient(135deg, #4d2d1a 0%, #2d1a0d 50%, #140a05 100%)"
  const Red: string := "linear-gradient(135deg, #4d1a1a 0%, #2d0d0d 50%, #140505 100%)"

  /** The gradients, lowest band first. */
  const Gradients: seq<string> := [Gray, Green, Cyan, Blue, Purple, Orange, Red]

  /** Where the background changes. */
  const CardThresholds: seq<int> := [1200, 1400, 1600, 1900, 2100, 2400]

  /** `getCardBackground(rating)`. */
  function CardBackground(rating: Option<int>): string {
    if !Helper.Rated(rating) || rating.value < 1200 then Gray
    else if rating.value < 1400 then Green
    else if rating.value < 1600 then Cyan
    else if rating.value < 1900 then Blue
    else if rating.value < 2100 then Purple
    else if rating.value < 2400 then Orange
    else Red
  }

  /** The background band: 0 for an absent or zero rating, else the band of the rating. */
  function CardBand(rating: Option<int>): (r: nat)
    ensures r < |Gradients|
  {
    if Helper.Rated(rating) then Helper.Band(CardThresholds, rating.value) else 0
  }

  /** `getCardBackground` is the gradient table indexed by the band of the rating. */
  lemma CardBackgroundTable(rating: Option<int>)
    ensures CardBackground(rating) == Gradients[CardBand(rating)]
  {
    if Helper.Rated(rating) {
      var k := Helper.Band(CardThresholds, rating.value);
      Helper.BandBounds(CardThresholds, rating.value);
      assert k in {0, 1, 2, 3, 4, 5, 6};
    }
  }

  /** Three digits read off a gradient's colour codes: different codes mean different gradients. */
  function Code(g: string): int {
    if |g| > 29 then 100 * (g[25] as int) + 10 * (g[27] as int) + (g[29] as int) else 0
  }

  /** The digit code of each gradient. */
  lemma GrayCode()
    ensures Code(Gray) == 222 + 111 * ('0' as int)
  {
    assert Gray[25] == '2' && Gray[27] == '2' && Gray[29] == '2';
  }

  lemma GreenCode()
    ensures Code(Green) == 141 + 111 * ('0' as int)
  {
    assert Green[25] == '1' && Green[27] == '4' && Green[29] == '1';
  }

  lemma CyanCode()
    ensures Code(Cyan) == 144 + 111 * ('0' as int)
  {
    assert Cyan[25] == '1' && Cyan[27] == '4' && Cyan[29] == '4';
  }

  lemma BlueCode()
    ensures Code(Blue) == 114 + 111 * ('0' as int)
  {
    assert Blue[25] == '1' && Blue[27] == '1' && Blue[29] == '4';
  }

  lemma PurpleCode()
    ensures Code(Purple) == 414 + 111 * ('0' as int)
  {
    assert Purple[25] == '4' && Purple[27] == '1' && Purple[29] == '4';
  }

  lemma OrangeCode()
    ensures Code(Orange) == 421 + 111 * ('0' as int)
  {
    assert Orange[25] == '4' && Orange[27] == '2' && Orange[29] == '1';
  }

  lemma RedCode()
    ensures Code(Red) == 411 + 111 * ('0' as int)
  {
    assert Red[25] == '4' && Red[27] == '1' && Red[29] == '1';
  }

  /** The seven gradients are different strings. */
  lemma GradientsDistinct()
    ensures Seqs.Distinct(Gradients)
  {
    GrayCode();
    GreenCode();
    CyanCode();
    BlueCode();
    PurpleCode();
    OrangeCode();
    RedCode();
    forall i, j | 0 <= i < j < |Gradients|
      ensures Gradients[i] != Gradients[j]
    {
      assert Code(Gradients[i]) != Code(Gradients[j]);
    }
  }

  /** The position of a gradient in the table. */
  function GradientRank(g: string): int {
    if g in Gradients then Helper.IndexIn(Gradients, g) else -1
  }

  /**
   * Every rating gets exactly one of the seven gradients, and a higher truthy rating
   * never gets a lower band's gradient.
   */
  lemma CardBackgroundMonotone(a: int, b: int)
    requires a != 0 && b != 0 && a <= b
    ensures CardBackground(Some(a)) in Gradients && CardBackground(Some(b)) in Gradients
    ensures GradientRank(CardBackground(Some(a))) <= GradientRank(CardBackground(Some(b)))
  {
    CardBackgroundTable(Some(a));
    CardBackgroundTable(Some(b));
    Helper.BandMonotone(CardThresholds, a, b);
    GradientRankAt(CardBand(Some(a)));
    GradientRankAt(CardBand(Some(b)));
  }

  lemma GradientRankAt(k: nat)
    requires k < |Gradients|
    ensures GradientRank(Gradients[k]) == k
  {
    GradientsDistinct();
  }

  /** The bands as the source lays them out. */
  lemma CardBands(r: int)
    ensures r == 0 || r < 1200 ==> CardBackground(Some(r)) == Gray
    ensures CardBackground(None) == Gray
    ensures r != 0 && 1200 <= r < 1400 ==> CardBackground(Some(r)) == Green
    ensures 1400 <= r < 1600 ==> CardBackground(Some(r)) == Cyan
    ensures 1600 <= r < 1900 ==> CardBackground(Some(r)) == Blue
    ensures 1900 <= r < 2100 ==> CardBackground(Some(r)) == Purple
    ensures 2100 <= r < 2400 ==> CardBackground(Some(r)) == Orange
    ensures r >= 2400 ==> CardBackground(Some(r)) == Red
  {
  }

  /** The `userData` prop: falsy, a truthy non-object, or a profile object. */
  datatype UserData =
    | Falsy
    | NotAnObject
    | Object(rating: Option<int>, maxRating: Option<int>, rank: Option<string>, contribution: Option<int>)

  /** A count prop as shown: `'...'` while undefined. */
  datatype Shown = Ellipsis | Count(n: int)

  /** What the card renders. */
  datatype CardView =
    | Loading
    | Failed
    | Card(background: string, ratingColor: string, maxRatingColor: string,
           rating: int, rank: string, contests: Shown, solved: Shown)

  /** `count !== undefined ? count : '...'`. */
  function ShowCount(count: Option<int>): (r: Shown)
    ensures r.Ellipsis? <==> count.None?
    ensures count.Some? ==> r == Count(count.value)
  {
    if count.Some? then Count(count.value) else Ellipsis
  }

  /** The component body: the placeholder, then the safety check, then the card. */
  function View(loading: bool, userData: UserData, contestsCount: Option<int>, solvedCount: Option<int>): (r: CardView)
    ensures r.Loading? <==> loading || userData.Falsy?
    ensures r.Failed? <==> !loading && userData.NotAnObject?
    ensures r.Card? ==> userData.Object? && r.background == CardBackground(userData.rating)
    ensures r.Card? ==> r.contests == ShowCount(contestsCount) && r.solved == ShowCount(solvedCount)
  {
    if loading || userData.Falsy? then Loading
    else if userData.NotAnObject? then Failed
    else
      Card(
        CardBackground(userData.rating),
        Helper.ColorByRating(userData.rating),
        Helper.ColorByRating(userData.maxRating),
        if Helper.Rated(userData.rating) then userData.rating.value else 0,
        if userData.rank.Some? && userData.rank.value != "" then userData.rank.value else "Unrated",
        ShowCount(contestsCount),
        ShowCount(solvedCount))
  }
}
