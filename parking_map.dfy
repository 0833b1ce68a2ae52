/**
 * The parking map component: the spots it shows (the ones it is given, or a
 * sample grid when it is given none) and its select / book / dialog state.
 */
module ParkingMap {
  import opened Wrappers
  import Decimal

  /** A parking spot as the client receives it. */
  datatype Spot = Spot(id: int, name: string, occupied: bool, spotType: string)

  /** The grid's dimensions. */
  const Rows: nat := 3
  const Cols: nat := 5

  /** The sample spot at 0-based `index`; `occupied` is that spot's random draw. */
  function SampleSpot(index: nat, occupied: bool): (s: Spot)
    ensures s.id == index + 1 && s.occupied == occupied
    ensures |s.name| > 5 && s.name[..5] == "Spot " && s.name[5..] == Decimal.Show(s.id) && Decimal.Value(s.name[5..]) == s.id
    ensures s.spotType == "handicap" <==> index % 3 == 0
    ensures s.spotType != "handicap" ==> s.spotType == "standard"
  {
    Decimal.ValueShow(index + 1);
    assert ("Spot " + Decimal.Show(index + 1))[5..] == Decimal.Show(index + 1);
    Spot(index + 1, "Spot " + Decimal.Show(index + 1), occupied, if index % 3 == 0 then "handicap" else "standard")
  }

  /**
   * The sample grid shown when no spots are given: one spot per cell of the
   * grid. `draw(i)` stands for the `Math.random() > 0.7` of spot `i`.
   */
  function FallbackGrid(draw: nat -> bool): (g: seq<Spot>)
    ensures |g| == Rows * Cols == 15
    ensures forall i | 0 <= i < |g| :: g[i].id == i + 1 && g[i].occupied == draw(i)
    ensures forall i | 0 <= i < |g| :: g[i].name == "Spot " + Decimal.Show(g[i].id)
    ensures forall i | 0 <= i < |g| :: g[i].spotType == (if (g[i].id - 1) % 3 == 0 then "handicap" else "standard")
  {
    var g := seq(Rows * Cols, (i: int) requires 0 <= i => SampleSpot(i, draw(i)));
    assert forall i | 0 <= i < |g| :: g[i] == SampleSpot(i, draw(i));
    g
  }

  /** Every sample spot has its own id and its own name. */
  lemma FallbackDistinct(draw: nat -> bool, i: nat, j: nat)
    requires i < j < Rows * Cols
    ensures FallbackGrid(draw)[i].id != FallbackGrid(draw)[j].id
    ensures FallbackGrid(draw)[i].name != FallbackGrid(draw)[j].name
  {
    var g := FallbackGrid(draw);
    if g[i].name == g[j].name {
      assert Decimal.Show(i + 1) == g[i].name[5..];
      assert Decimal.Show(j + 1) == g[j].name[5..];
      Decimal.ShowInjective(i + 1, j + 1);
    }
  }

  /** The number in a sample spot's name is its id. */
  lemma FallbackNameNumber(draw: nat -> bool, i: nat)
    requires i < Rows * Cols
    ensures var s := FallbackGrid(draw)[i];
            s.name[..5] == "Spot " && Decimal.Value(s.name[5..]) == s.id
  {
    var s := FallbackGrid(draw)[i];
    assert s.name[5..] == Decimal.Show(i + 1);
    Decimal.ValueShow(i + 1);
  }

  /** The handicap spots of the sample grid are those with ids 1, 4, 7, 10 and 13. */
  lemma FallbackHandicap(draw: nat -> bool, i: nat)
    requires i < Rows * Cols
    ensures FallbackGrid(draw)[i].spotType == "handicap" <==> FallbackGrid(draw)[i].id in {1, 4, 7, 10, 13}
  {
    var s := FallbackGrid(draw)[i];
    assert s.spotType == "handicap" <==> (s.id - 1) % 3 == 0 by {
      assert "standard" != "handicap";
    }
    ThirdIds(s.id);
  }

  /** Among the ids 1..15, those one more than a multiple of 3. */
  lemma ThirdIds(id: int)
    requires 1 <= id <= 15
    ensures (id - 1) % 3 == 0 <==> id in {1, 4, 7, 10, 13}
  {
    var q := (id - 1) / 3;
    assert id - 1 == 3 * q + (id - 1) % 3;
    assert 0 <= q < 5;
  }

  /** The spots the map shows: the given ones, or the sample grid when there are none. */
  function DisplayedSpots(spots: seq<Spot>, draw: nat -> bool): (shown: seq<Spot>)
    ensures |spots| > 0 ==> shown == spots
    ensures |spots| == 0 ==> shown == FallbackGrid(draw)
    ensures |spots| == 0 ==> |shown| == 15 && forall i | 0 <= i < 15 :: shown[i].id == i + 1
  {
    if |spots| > 0 then spots else FallbackGrid(draw)
  }

  /** The component's state. */
  class MapState {
    var selectedSpot: Option<Spot>
    var bookingDialogOpen: bool
    var loading: bool
    /** The spot ids passed to `bookParkingSpot`, oldest first. */
    var bookRequests: seq<int>

    /** The dialog is only ever open on a free spot, and nothing is in flight between events. */
    ghost predicate Valid()
      reads this
    {
      && (selectedSpot.Some? ==> !selectedSpot.value.occupied)
      && (bookingDialogOpen ==> selectedSpot.Some?)
      && !loading
    }

    constructor ()
      ensures Valid()
      ensures selectedSpot == None && !bookingDialogOpen && !loading && bookRequests == []
    {
      selectedSpot := None;
      bookingDialogOpen := false;
      loading := false;
      bookRequests := [];
    }

    /** A click on a spot: a free spot is selected and the dialog opens; an occupied one is ignored. */
    method HandleSpotClick(spot: Spot)
      requires Valid()
      modifies this
      ensures Valid()
      ensures !spot.occupied ==> selectedSpot == Some(spot) && bookingDialogOpen
      ensures spot.occupied ==> selectedSpot == old(selectedSpot) && bookingDialogOpen == old(bookingDialogOpen)
      ensures loading == old(loading) && bookRequests == old(bookRequests)
    {
      if !spot.occupied {
        selectedSpot := Some(spot);
        bookingDialogOpen := true;
      }
    }

    /**
     * Confirm Booking: with a spot selected, request it; the dialog closes
     * when the request succeeds and stays as it was when it fails. The
     * request's outcome is returned, `None` when nothing was requested.
     */
    method HandleBookSpot() returns (booked: Option<bool>)
      requires Valid()
      modifies this
      ensures Valid()
      ensures old(selectedSpot).None? ==>
                booked.None? && bookRequests == old(bookRequests) && bookingDialogOpen == old(bookingDialogOpen)
      ensures old(selectedSpot).Some? ==>
                && booked.Some?
                && bookRequests == old(bookRequests) + [old(selectedSpot).value.id]
                && bookingDialogOpen == (old(bookingDialogOpen) && !booked.value)
      ensures selectedSpot == old(selectedSpot) && !loading
    {
      if selectedSpot.None? {
        return None;
      }
      loading := true;
      bookRequests := bookRequests + [selectedSpot.value.id];
      var ok: bool :| true;
      if ok {
        bookingDialogOpen := false;
      }
      loading := false;
      return Some(ok);
    }

    /** Cancel (or any other dismissal of the dialog) closes it and changes nothing else. */
    method CloseDialog()
      requires Valid()
      modifies this
      ensures Valid()
      ensures !bookingDialogOpen
      ensures selectedSpot == old(selectedSpot) && loading == old(loading) && bookRequests == old(bookRequests)
    {
      bookingDialogOpen := false;
    }
  }
}
