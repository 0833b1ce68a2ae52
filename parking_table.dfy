/**
 * The static parking table page: each row has a status cell (1), a user
 * cell (2) and an action cell (3) holding an Assign or a Release button.
 * Page load attaches one click listener to every button of class
 * `assign-btn` or `release-btn`; a listener rewrites the three cells of its
 * button's row and removes the button.
 */
module ParkingTable {
  import opened Wrappers
  import Decimal

  datatype Action = Assign | Release

  /** A node inside a table cell. A button carries the click listener attached to it, if any. */
  datatype Node =
    | Text(text: string)
    | Span(cls: string)
    | Button(cls: string, caption: string, listener: Option<Action>)

  type Cell = seq<Node>
  type Row = seq<Cell>

  // ---------------------------------------------------------------------
  // The markup the listeners write
  // ---------------------------------------------------------------------

  const OccupiedStatus: Cell := [Span("occupied"), Text(" Occupied")]
  const AvailableStatus: Cell := [Span("available"), Text(" Available")]
  const NoUser: Cell := [Text("None")]

  /** Parsed from an HTML string, so the new button has no listener. */
  const ReleaseButton: Cell := [Button("release-btn", "Release", None)]
  const AssignButton: Cell := [Button("assign-btn", "Assign", None)]

  /** The user cell for the random number `n`. */
  function UserCell(n: nat): (cell: Cell)
    ensures |cell| == 1 && cell[0].Text? && |cell[0].text| > 5 && cell[0].text[..5] == "User "
    ensures forall i | 0 <= i < |cell[0].text[5..]| :: Decimal.IsDigit(cell[0].text[5..][i])
    ensures cell[0].text[5..] == Decimal.Show(n)
    ensures Decimal.Value(cell[0].text[5..]) == n
  {
    Decimal.ValueShow(n);
    var t := "User " + Decimal.Show(n);
    assert t[5..] == Decimal.Show(n);
    [Text(t)]
  }

  /** A cell in which no node has a listener. */
  predicate Inert(cell: Cell) {
    forall k | 0 <= k < |cell| :: !(cell[k].Button? && cell[k].listener.Some?)
  }

  // ---------------------------------------------------------------------
  // Page load
  // ---------------------------------------------------------------------

  /** The listener page load attaches to a button of class `cls`. */
  function ListenerFor(cls: string): (a: Option<Action>)
    ensures a == Some(Assign) <==> cls == "assign-btn"
    ensures a == Some(Release) <==> cls == "release-btn"
  {
    if cls == "assign-btn" then Some(Assign)
    else if cls == "release-btn" then Some(Release)
    else None
  }

  function AttachNode(n: Node): Node {
    if n.Button? then n.(listener := ListenerFor(n.cls)) else n
  }

  /** The page after the two `forEach` loops: every button carries the listener its class selects. */
  function Attach(markup: seq<Row>): (rows: seq<Row>)
    ensures |rows| == |markup|
    ensures forall r | 0 <= r < |rows| :: |rows[r]| == |markup[r]|
    ensures forall r, c | 0 <= r < |rows| && 0 <= c < |rows[r]| :: |rows[r][c]| == |markup[r][c]|
    ensures forall r, c, k | 0 <= r < |rows| && 0 <= c < |rows[r]| && 0 <= k < |rows[r][c]| ::
              rows[r][c][k] == AttachNode(markup[r][c][k])
  {
    seq(|markup|, (r: int) requires 0 <= r < |markup| =>
      seq(|markup[r]|, (c: int) requires 0 <= c < |markup[r]| =>
        seq(|markup[r][c]|, (k: int) requires 0 <= k < |markup[r][c]| => AttachNode(markup[r][c][k]))))
  }

  /** After load a button reacts exactly as its class says; nothing else changes. */
  lemma AttachListeners(markup: seq<Row>, r: nat, c: nat, k: nat)
    requires r < |markup| && c < |markup[r]| && k < |markup[r][c]|
    ensures var n, m := Attach(markup)[r][c][k], markup[r][c][k];
            && n.Button? == m.Button?
            && (n.Button? ==> n.cls == m.cls && n.caption == m.caption && n.listener == ListenerFor(m.cls))
            && (!n.Button? ==> n == m)
  {
  }

  // ---------------------------------------------------------------------
  // A click
  // ---------------------------------------------------------------------

  /** The listener of the node at (r, c, k), if it is a button that has one. */
  function ListenerAt(rows: seq<Row>, r: nat, c: nat, k: nat): Option<Action>
    requires r < |rows| && c < |rows[r]| && k < |rows[r][c]|
  {
    var n := rows[r][c][k];
    if n.Button? then n.listener else None
  }

  function Removed(cell: Cell, k: nat): (rest: Cell)
    requires k < |cell|
    ensures |rest| == |cell| - 1
    ensures forall j | 0 <= j < k :: rest[j] == cell[j]
    ensures forall j | k <= j < |rest| :: rest[j] == cell[j + 1]
  {
    cell[..k] + cell[k + 1..]
  }

  /**
   * What a listener does to the row of the button at cell `c`, node `k`:
   * write `status`, `user` and `action` into cells 1, 2 and 3, then remove
   * the button. A missing cell throws, so the writes stop at the first cell
   * the row does not have and the button stays. When the button sat in one
   * of the rewritten cells, that write has already taken it out.
   */
  function Rewrite(row: Row, status: Cell, user: Cell, action: Cell, c: nat, k: nat): (out: Row)
    requires c < |row| && k < |row[c]|
    ensures |out| == |row|
    ensures |row| > 1 ==> out[1] == status
    ensures |row| > 2 ==> out[2] == user
    ensures |row| > 3 ==> out[3] == action
    ensures |row| > 3 && (c < 1 || 3 < c) ==> out[c] == Removed(row[c], k)
    ensures forall j | 0 <= j < |row| && j != c && !(1 <= j <= 3) :: out[j] == row[j]
    ensures |row| <= 3 ==> forall j | 0 <= j < |row| && (j < 1 || |row| <= j) :: out[j] == row[j]
  {
    if |row| < 2 then row
    else if |row| < 3 then row[1 := status]
    else if |row| < 4 then row[1 := status][2 := user]
    else
      var written := row[1 := status][2 := user][3 := action];
      if 1 <= c <= 3 then written else written[c := Removed(written[c], k)]
  }

  /** The page after clicking the node at (r, c, k); `n` is the Assign listener's random number. */
  function ClickEffect(rows: seq<Row>, r: nat, c: nat, k: nat, n: nat): (after: seq<Row>)
    requires r < |rows| && c < |rows[r]| && k < |rows[r][c]|
    ensures ListenerAt(rows, r, c, k).None? ==> after == rows
    ensures |after| == |rows| && forall q | 0 <= q < |rows| && q != r :: after[q] == rows[q]
    ensures |after[r]| == |rows[r]|
    ensures ListenerAt(rows, r, c, k) == Some(Assign) && |rows[r]| > 2 ==>
              after[r][1] == OccupiedStatus && after[r][2] == UserCell(n)
    ensures ListenerAt(rows, r, c, k) == Some(Release) && |rows[r]| > 2 ==>
              after[r][1] == AvailableStatus && after[r][2] == NoUser
  {
    match ListenerAt(rows, r, c, k)
    case None => rows
    case Some(Assign) => rows[r := Rewrite(rows[r], OccupiedStatus, UserCell(n), ReleaseButton, c, k)]
    case Some(Release) => rows[r := Rewrite(rows[r], AvailableStatus, NoUser, AssignButton, c, k)]
  }

  /** Assign: the row shows Occupied, "User n" and a Release button, and the clicked button is gone. */
  lemma AssignEffect(rows: seq<Row>, r: nat, c: nat, k: nat, n: nat)
    requires r < |rows| && c < |rows[r]| && k < |rows[r][c]| && |rows[r]| >= 4
    requires ListenerAt(rows, r, c, k) == Some(Assign)
    ensures var row := ClickEffect(rows, r, c, k, n)[r];
            && row[1] == OccupiedStatus && row[2] == UserCell(n) && row[3] == ReleaseButton
            && (c < 1 || 3 < c ==> row[c] == Removed(rows[r][c], k))
  {
  }

  /** Release: the row shows Available, "None" and an Assign button, whatever it held before. */
  lemma ReleaseEffect(rows: seq<Row>, r: nat, c: nat, k: nat, n: nat)
    requires r < |rows| && c < |rows[r]| && k < |rows[r][c]| && |rows[r]| >= 4
    requires ListenerAt(rows, r, c, k) == Some(Release)
    ensures var row := ClickEffect(rows, r, c, k, n)[r];
            && row[1] == AvailableStatus && row[2] == NoUser && row[3] == AssignButton
            && (c < 1 || 3 < c ==> row[c] == Removed(rows[r][c], k))
  {
  }

  /** A click touches only cells 1 to 3 of its own row, and the cell its button sat in. */
  lemma ClickIsLocal(rows: seq<Row>, r: nat, c: nat, k: nat, n: nat)
    requires r < |rows| && c < |rows[r]| && k < |rows[r][c]|
    ensures var after := ClickEffect(rows, r, c, k, n);
            && |after| == |rows|
            && (forall q | 0 <= q < |rows| && q != r :: after[q] == rows[q])
            && |after[r]| == |rows[r]|
            && (forall j | 0 <= j < |rows[r]| && j != c && !(1 <= j <= 3) :: after[r][j] == rows[r][j])
  {
  }

  /** A button the listeners created has no listener, so clicking it does nothing. */
  lemma CreatedButtonsInert(rows: seq<Row>, r: nat, c: nat, k: nat, n: nat, m: nat)
    requires r < |rows| && c < |rows[r]| && k < |rows[r][c]| && |rows[r]| >= 4
    requires ListenerAt(rows, r, c, k).Some?
    ensures var after := ClickEffect(rows, r, c, k, n);
            Inert(after[r][1]) && Inert(after[r][2]) && Inert(after[r][3]) &&
            ClickEffect(after, r, 3, 0, m) == after
  {
  }

  /** The page as a browser holds it. */
  class Page {
    var rows: seq<Row>

    /** Parse the markup and run the two `forEach` loops. */
    constructor Load(markup: seq<Row>)
      ensures rows == Attach(markup)
    {
      rows := Attach(markup);
    }

    /**
     * A click on node `k` of cell `c` of row `r`. A button with a listener
     * runs it; `drawn` is the random user number an Assign listener wrote.
     */
    method Click(r: nat, c: nat, k: nat) returns (drawn: Option<nat>)
      requires r < |rows| && c < |rows[r]| && k < |rows[r][c]|
      modifies this
      ensures drawn.Some? <==> ListenerAt(old(rows), r, c, k) == Some(Assign) && |old(rows)[r]| > 2
      ensures drawn.Some? ==> drawn.value < 1000
      ensures rows == ClickEffect(old(rows), r, c, k, drawn.GetOr(0))
    {
      drawn := None;
      var node := rows[r][c][k];
      if !node.Button? || node.listener.None? {
        return;
      }
      var row := rows[r];
      var status, user, action;
      if node.listener.value == Assign {
        var n: nat :| n < 1000;
        status, user, action := OccupiedStatus, UserCell(n), ReleaseButton;
        if |row| > 2 {
          drawn := Some(n);
        }
      } else {
        status, user, action := AvailableStatus, NoUser, AssignButton;
      }
      // row.cells[1].innerHTML = ...; a missing cell throws and ends the listener
      if |row| > 1 {
        row := row[1 := status];
      }
      if |row| > 2 {
        row := row[2 := user];
      }
      if |row| > 3 {
        row := row[3 := action];
        // button.remove(): already detached when its cell was rewritten
        if c < 1 || 3 < c {
          row := row[c := Removed(row[c], k)];
        }
      }
      rows := rows[r := row];
    }
  }
}
