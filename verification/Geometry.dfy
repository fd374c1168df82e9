/**
  Where a placement belongs on the screen, given the panes and windows it is anchored to.
 */
module Geometry {
  datatype Anchor =
    | Absolute(row: int, col: int)
    | InPane(pane: string, row: int, col: int)
    | InWin(win: int, bufLine: int, col: int)
    | Unknown

  datatype Pane = Pane(top: int, left: int, width: int, height: int, active: bool)

  /** An editor window; pane is empty outside tmux. */
  datatype Win = Win(client: string, pane: string, top: int, left: int, width: int, height: int, scrollTop: int)

  /** 0 means unknown. */
  datatype Size = Size(rows: nat, cols: nat)

  datatype Spot = Spot(row: int, col: int, visible: bool)

  const HIDDEN := Spot(0, 0, false)

  function ScreenPos(anchor: Anchor, panes: map<string, Pane>, wins: map<int, Win>, size: Size): Spot {
    match anchor
    case Absolute(row, col) =>
      Spot(row, col, row >= 0 && col >= 0 && (size.rows > 0 ==> row < size.rows) && (size.cols > 0 ==> col < size.cols))
    case InPane(id, row, col) =>
      if id !in panes || !panes[id].active then HIDDEN
      else
        var pane := panes[id];
        Spot(pane.top + row, pane.left + col, 0 <= row < pane.height && 0 <= col < pane.width)
    case InWin(id, bufLine, col) =>
      if id !in wins then HIDDEN
      else
        var win := wins[id];
        var line := bufLine - win.scrollTop;
        if line < 0 || line >= win.height then HIDDEN
        else if win.pane == "" then Spot(win.top + line, win.left + col, true)
        else if win.pane !in panes || !panes[win.pane].active then HIDDEN
        else
          var pane := panes[win.pane];
          var row := win.top + line + pane.top;
          var col := win.left + col + pane.left;
          if Inside(pane, row, col) then Spot(row, col, true) else HIDDEN
    case Unknown => HIDDEN
  }

  predicate Inside(pane: Pane, row: int, col: int) {
    pane.top <= row < pane.top + pane.height && pane.left <= col < pane.left + pane.width
  }

  /** Within the terminal, the active pane or the window's active pane that something is anchored to. */
  predicate InsideAnchor(anchor: Anchor, panes: map<string, Pane>, wins: map<int, Win>, size: Size, row: int,
    col: int) {
    match anchor
    case Absolute(_, _) =>
      0 <= row && 0 <= col && (size.rows == 0 || row < size.rows) && (size.cols == 0 || col < size.cols)
    case InPane(id, _, _) =>
      id in panes && panes[id].active && Inside(panes[id], row, col)
    case InWin(id, _, _) =>
      && id in wins
      && var pane := wins[id].pane;
         pane == "" || (pane in panes && panes[pane].active && Inside(panes[pane], row, col))
    case Unknown => false
  }

  /** What is visible lies within whatever it is anchored to. */
  lemma VisibleIsInside(anchor: Anchor, panes: map<string, Pane>, wins: map<int, Win>, size: Size)
    ensures var spot := ScreenPos(anchor, panes, wins, size);
            spot.visible ==> InsideAnchor(anchor, panes, wins, size, spot.row, spot.col)
  {
  }

  /** Only the window a placement is anchored to matters to it. */
  lemma OtherWinsDoNotMatter(anchor: Anchor, panes: map<string, Pane>, wins: map<int, Win>, others: map<int, Win>,
                             size: Size)
    requires anchor.InWin? ==> (anchor.win in wins <==> anchor.win in others)
    requires anchor.InWin? && anchor.win in wins ==> wins[anchor.win] == others[anchor.win]
    ensures ScreenPos(anchor, panes, wins, size) == ScreenPos(anchor, panes, others, size)
  {
  }

  // ------------------------------------------------------------ from the cell back

  /** The pane a window is in shows something; outside tmux there is none to ask. */
  predicate Unobscured(win: Win, panes: map<string, Pane>) {
    win.pane == "" || (win.pane in panes && panes[win.pane].active)
  }

  /** Where the upper left corner of a window is. */
  predicate CornerAt(win: Win, panes: map<string, Pane>, row: int, col: int) {
    if win.pane == "" then (row, col) == (win.top, win.left)
    else win.pane in panes && row - panes[win.pane].top == win.top && col - panes[win.pane].left == win.left
  }

  /**
    What is at a cell of the screen: of a pane, the row and column counted from its
    corner; of a window, the buffer line counted from its first line on display, and
    the column. A window has no right edge of its own.
   */
  ghost predicate CellHolds(anchor: Anchor, panes: map<string, Pane>, wins: map<int, Win>, size: Size, row: int,
                            col: int) {
    match anchor
    case Absolute(r, c) =>
      (row, col) == (r, c) && row >= 0 && col >= 0 && (size.rows == 0 || row < size.rows)
      && (size.cols == 0 || col < size.cols)
    case InPane(id, r, c) =>
      && id in panes && panes[id].active && Inside(panes[id], row, col)
      && row - panes[id].top == r && col - panes[id].left == c
    case InWin(id, line, c) =>
      && id in wins && Unobscured(wins[id], panes)
      && (wins[id].pane != "" ==> Inside(panes[wins[id].pane], row, col))
      && exists top, left :: CornerAt(wins[id], panes, top, left)
           && 0 <= row - top < wins[id].height && wins[id].scrollTop + (row - top) == line && col - left == c
    case Unknown => false
  }

  /** A placement is visible at a cell exactly when that cell holds what it is anchored to. */
  lemma VisibleIffHeld(anchor: Anchor, panes: map<string, Pane>, wins: map<int, Win>, size: Size, row: int, col: int)
    ensures ScreenPos(anchor, panes, wins, size) == Spot(row, col, true) <==>
              CellHolds(anchor, panes, wins, size, row, col)
  {
    if anchor.InWin? && anchor.win in wins && Unobscured(wins[anchor.win], panes) {
      var win := wins[anchor.win];
      var top, left := win.top + (if win.pane == "" then 0 else panes[win.pane].top),
        win.left + (if win.pane == "" then 0 else panes[win.pane].left);
      assert CornerAt(win, panes, top, left);
    }
  }

  /** Outside tmux nothing clips a window's columns: what is shown lies in the window only if its column does. */
  lemma ColumnsAreNotClipped(id: int, line: int, col: int, panes: map<string, Pane>, wins: map<int, Win>, size: Size)
    requires id in wins && wins[id].pane == ""
    ensures var win, spot := wins[id], ScreenPos(InWin(id, line, col), panes, wins, size);
            spot.visible ==> (win.left <= spot.col < win.left + win.width <==> 0 <= col < win.width)
    ensures ScreenPos(InWin(id, line, col), panes, wins, size).visible <==>
              ScreenPos(InWin(id, line, 0), panes, wins, size).visible
  {
  }

  // ------------------------------------------------------------------- movements

  /** Scrolling by k lines moves what stays visible by k rows the other way, and by no column. */
  lemma ScrollingMoves(id: int, line: int, col: int, panes: map<string, Pane>, wins: map<int, Win>, size: Size, k: int)
    requires id in wins
    ensures var scrolled := wins[id := wins[id].(scrollTop := wins[id].scrollTop + k)];
            var a := ScreenPos(InWin(id, line, col), panes, wins, size);
            var b := ScreenPos(InWin(id, line, col), panes, scrolled, size);
            a.visible && b.visible ==> b.row == a.row - k && b.col == a.col
  {
  }

  /** The first line on display is at the window's corner, and lines and columns count on from there. */
  lemma CountedFromCorner(id: int, line: int, col: int, panes: map<string, Pane>, wins: map<int, Win>, size: Size)
    requires id in wins
    ensures var win, a := wins[id], ScreenPos(InWin(id, wins[id].scrollTop, 0), panes, wins, size);
            a.visible ==> CornerAt(win, panes, a.row, a.col)
    ensures var win, a := wins[id], ScreenPos(InWin(id, wins[id].scrollTop, 0), panes, wins, size);
            var b := ScreenPos(InWin(id, line, col), panes, wins, size);
            a.visible && b.visible ==> b.row - a.row == line - win.scrollTop && b.col - a.col == col
  {
  }

  /** Moving a window moves what stays visible in it the same way; outside tmux everything visible stays so. */
  lemma WindowMoves(id: int, line: int, col: int, panes: map<string, Pane>, wins: map<int, Win>, size: Size,
                    dr: int, dc: int)
    requires id in wins
    ensures var moved := wins[id := wins[id].(top := wins[id].top + dr, left := wins[id].left + dc)];
            var a := ScreenPos(InWin(id, line, col), panes, wins, size);
            var b := ScreenPos(InWin(id, line, col), panes, moved, size);
            && (a.visible && b.visible ==> b == a.(row := a.row + dr, col := a.col + dc))
            && (wins[id].pane == "" ==> (a.visible <==> b.visible))
  {
  }

  /** Moving a pane moves all that is visible in it or in a window in it the same way. */
  lemma PaneMoves(anchor: Anchor, id: string, panes: map<string, Pane>, wins: map<int, Win>, size: Size,
                  dr: int, dc: int)
    requires id in panes && id != ""
    requires match anchor
             case InPane(pane, _, _) => pane == id
             case InWin(win, _, _) => win in wins && wins[win].pane == id
             case _ => false
    ensures var moved := panes[id := panes[id].(top := panes[id].top + dr, left := panes[id].left + dc)];
            var a, b := ScreenPos(anchor, panes, wins, size), ScreenPos(anchor, moved, wins, size);
            && (a.visible <==> b.visible)
            && (a.visible ==> b == a.(row := a.row + dr, col := a.col + dc))
  {
  }
}
