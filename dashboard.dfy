/**
 * The dashboard page: the load-time token check and data fetch, the three
 * statistics cards and the two booking tabs.
 */
module Dashboard {
  import opened Wrappers
  import opened ArrayOps
  import opened ParkingMap

  /** A booking as the client receives it; the start and end times are not modelled. */
  datatype Booking = Booking(id: int, spotId: int, status: string)

  predicate IsFree(s: Spot) { !s.occupied }
  predicate IsOccupied(s: Spot) { s.occupied }
  predicate IsActive(b: Booking) { b.status == "active" }
  predicate IsCompleted(b: Booking) { b.status == "completed" }

  // ---------------------------------------------------------------------
  // Statistics
  // ---------------------------------------------------------------------

  /** The Available Spots card: the number of spots not occupied. */
  function AvailableCount(spots: seq<Spot>): (n: nat)
    ensures n <= |spots|
    ensures n == |set i: nat | i < |spots| && !spots[i].occupied|
  {
    FilterLength(spots, IsFree);
    assert Matching(spots, IsFree) == set i: nat | i < |spots| && !spots[i].occupied;
    |Filter(spots, IsFree)|
  }

  function OccupiedCount(spots: seq<Spot>): (n: nat)
    ensures n <= |spots|
    ensures n == |set i: nat | i < |spots| && spots[i].occupied|
  {
    FilterLength(spots, IsOccupied);
    assert Matching(spots, IsOccupied) == set i: nat | i < |spots| && spots[i].occupied;
    |Filter(spots, IsOccupied)|
  }

  /** Every spot is either available or occupied. */
  lemma AvailablePlusOccupied(spots: seq<Spot>)
    ensures AvailableCount(spots) + OccupiedCount(spots) == |spots|
  {
    FilterSplit(spots, IsFree, IsOccupied);
  }

  /** The Your Bookings card: the number of active bookings. */
  function ActiveCount(bookings: seq<Booking>): (n: nat)
    ensures n == |set i: nat | i < |bookings| && bookings[i].status == "active"|
  {
    FilterLength(bookings, IsActive);
    assert Matching(bookings, IsActive) == set i: nat | i < |bookings| && bookings[i].status == "active";
    |Filter(bookings, IsActive)|
  }

  /** `Math.round(num / den)` for non-negative operands: the nearest integer, halves rounded up. */
  function RoundHalfUp(num: nat, den: nat): (r: nat)
    requires den > 0
    ensures 2 * r * den <= 2 * num + den < 2 * (r + 1) * den
  {
    var q := (2 * num + den) / (2 * den);
    assert (2 * num + den) % (2 * den) < 2 * den;
    assert 2 * den * q + (2 * num + den) % (2 * den) == 2 * num + den;
    q
  }

  lemma ScaleMono(a: nat, b: nat, n: nat)
    ensures a <= b ==> 2 * a * n <= 2 * b * n
  {
  }

  /** The Occupancy Rate card, in percent: 0 without spots, else 100·occupied/total rounded half up. */
  function OccupancyRate(spots: seq<Spot>): (rate: nat)
    ensures |spots| == 0 ==> rate == 0
    ensures |spots| > 0 ==>
              2 * rate * |spots| <= 200 * OccupiedCount(spots) + |spots| < 2 * (rate + 1) * |spots|
    ensures rate <= 100
  {
    if |spots| > 0 then
      var r := RoundHalfUp(100 * OccupiedCount(spots), |spots|);
      ScaleMono(101, r, |spots|);
      r
    else 0
  }

  /** A full lot shows 100%, an empty one 0%. */
  lemma OccupancyExtremes(spots: seq<Spot>)
    requires |spots| > 0
    ensures OccupiedCount(spots) == |spots| ==> OccupancyRate(spots) == 100
    ensures OccupiedCount(spots) == 0 ==> OccupancyRate(spots) == 0
  {
    var n, r := |spots|, OccupancyRate(spots);
    ScaleMono(r + 1, 100, n);
    ScaleMono(1, r, n);
  }

  // ---------------------------------------------------------------------
  // Tabs
  // ---------------------------------------------------------------------

  /** The Your Bookings tab. */
  function ActiveBookings(bookings: seq<Booking>): (tab: seq<Booking>)
    ensures forall b | b in tab :: b in bookings && b.status == "active"
    ensures forall i | 0 <= i < |bookings| && bookings[i].status == "active" :: bookings[i] in tab
  {
    Filter(bookings, IsActive)
  }

  /** The History tab. */
  function HistoryBookings(bookings: seq<Booking>): (tab: seq<Booking>)
    ensures forall b | b in tab :: b in bookings && b.status == "completed"
    ensures forall i | 0 <= i < |bookings| && bookings[i].status == "completed" :: bookings[i] in tab
  {
    Filter(bookings, IsCompleted)
  }

  /** Each tab lists its bookings as often as they occur and in their original order. */
  lemma TabsKeepOrder(xs: seq<Booking>, ys: seq<Booking>)
    ensures ActiveBookings(xs + ys) == ActiveBookings(xs) + ActiveBookings(ys)
    ensures HistoryBookings(xs + ys) == HistoryBookings(xs) + HistoryBookings(ys)
    ensures forall b :: multiset(ActiveBookings(xs))[b] == if b.status == "active" then multiset(xs)[b] else 0
    ensures forall b :: multiset(HistoryBookings(xs))[b] == if b.status == "completed" then multiset(xs)[b] else 0
  {
    FilterAppend(xs, ys, IsActive);
    FilterAppend(xs, ys, IsCompleted);
    FilterMultiset(xs, IsActive);
    FilterMultiset(xs, IsCompleted);
  }

  /** No booking is on both tabs, and one with any other status is on neither. */
  lemma TabsPartition(bookings: seq<Booking>, b: Booking)
    ensures !(b in ActiveBookings(bookings) && b in HistoryBookings(bookings))
    ensures b.status != "active" && b.status != "completed" ==>
              b !in ActiveBookings(bookings) && b !in HistoryBookings(bookings)
  {
  }

  /** The count on the Your Bookings card is the length of the Your Bookings tab. */
  lemma ActiveCountIsTabLength(bookings: seq<Booking>)
    ensures ActiveCount(bookings) == |ActiveBookings(bookings)|
  {
  }

  // ---------------------------------------------------------------------
  // The page
  // ---------------------------------------------------------------------

  /** What the page shows: a spinner while loading, else the cards and tabs. */
  datatype View =
    | Loading
    | Shown(available: nat, total: nat, active: nat, rate: nat,
            activeTab: seq<Booking>, historyTab: seq<Booking>, mapSpots: seq<Spot>)

  function Render(loading: bool, spots: seq<Spot>, bookings: seq<Booking>): (v: View)
    ensures v.Loading? <==> loading
    ensures v.Shown? ==> v.available <= v.total == |spots| && v.rate <= 100 && v.active == |v.activeTab|
    ensures v.Shown? ==> v == Shown(AvailableCount(spots), |spots|, ActiveCount(bookings), OccupancyRate(spots),
                                    ActiveBookings(bookings), HistoryBookings(bookings), spots)
  {
    if loading then Loading
    else Shown(AvailableCount(spots), |spots|, ActiveCount(bookings), OccupancyRate(spots),
               ActiveBookings(bookings), HistoryBookings(bookings), spots)
  }

  class DashboardPage {
    var parkingSpots: seq<Spot>
    var userBookings: seq<Booking>
    var loading: bool
    /** Where the router was sent, if anywhere. */
    var route: Option<string>
    /** The API paths requested, oldest first. */
    var requests: seq<string>

    constructor ()
      ensures parkingSpots == [] && userBookings == [] && loading && route == None && requests == []
    {
      parkingSpots := [];
      userBookings := [];
      loading := true;
      route := None;
      requests := [];
    }

    /**
     * The load-time effect. A missing or empty token sends the router to
     * `/login` and stops: nothing is fetched and the spinner stays. Otherwise
     * the spots and then the bookings are fetched (`spots` and `bookings`
     * are what the two requests return) and loading ends.
     */
    method CheckAuthAndFetchData(token: Option<string>, spots: seq<Spot>, bookings: seq<Booking>)
      modifies this
      ensures token.None? || token == Some("") ==>
                && route == Some("/login") && requests == old(requests) && loading == old(loading)
                && parkingSpots == old(parkingSpots) && userBookings == old(userBookings)
      ensures token.Some? && token != Some("") ==>
                && route == old(route) && requests == old(requests) + ["/parking/spots", "/parking/bookings"]
                && parkingSpots == spots && userBookings == bookings && !loading
    {
      if token.None? || token.value == "" {
        route := Some("/login");
        return;
      }
      requests := requests + ["/parking/spots"];
      requests := requests + ["/parking/bookings"];
      parkingSpots := spots;
      userBookings := bookings;
      loading := false;
    }
  }

  /** Opening the dashboard without a token: redirected to /login, no request, and the spinner stays. */
  method OpenWithoutToken(spots: seq<Spot>, bookings: seq<Booking>) returns (v: View, route: Option<string>, requests: seq<string>)
    ensures v == Loading && route == Some("/login") && requests == []
  {
    var page := new DashboardPage();
    page.CheckAuthAndFetchData(None, spots, bookings);
    v := Render(page.loading, page.parkingSpots, page.userBookings);
    route := page.route;
    requests := page.requests;
  }

  /** Opening it with a token: the cards and tabs are computed from exactly the fetched data. */
  method OpenWithToken(token: string, spots: seq<Spot>, bookings: seq<Booking>) returns (v: View)
    requires token != ""
    ensures v == Render(false, spots, bookings)
  {
    var page := new DashboardPage();
    page.CheckAuthAndFetchData(Some(token), spots, bookings);
    v := Render(page.loading, page.parkingSpots, page.userBookings);
  }
}
