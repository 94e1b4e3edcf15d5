/** The home-screen data model: a grid of desktop items plus a dock. */
module HomeLayout {

  /** A cell of the home-screen grid. */
  datatype GridPosition = GridPosition(row: int, col: int) {

    /** `isValid`: the cell lies inside a grid of `maxRows` rows and `maxCols` columns. */
    predicate IsValid(maxRows: int, maxCols: int) {
      0 <= row < maxRows && 0 <= col < maxCols
    }
  }

  /** A widget's extent in grid cells. */
  datatype GridSize = GridSize(rows: int, cols: int)

  /** What can sit on the home screen; every variant has a position. */
  datatype DesktopItem =
    | AppShortcut(packageName: string, position: GridPosition)
    | Folder(id: string, name: string, apps: seq<string>, position: GridPosition)
    | Widget(widgetId: int, position: GridPosition, size: GridSize)

  /** The stored layout; the defaults are those of the Kotlin data class. */
  datatype HomeScreenLayout = HomeScreenLayout(
    id: int := 1,
    gridRows: int := 5,
    gridCols: int := 4,
    items: seq<DesktopItem> := [],
    dockApps: seq<string> := [])

  /** A grid with no rows or no columns has no valid position. */
  lemma NoValidPositionInEmptyGrid(p: GridPosition, maxRows: int, maxCols: int)
    requires maxRows <= 0 || maxCols <= 0
    ensures !p.IsValid(maxRows, maxCols)
  {
  }

  /** A position valid in a grid stays valid in any grid at least as large. */
  lemma ValidityIsMonotone(p: GridPosition, rows: int, cols: int, rows': int, cols': int)
    requires p.IsValid(rows, cols) && rows <= rows' && cols <= cols'
    ensures p.IsValid(rows', cols')
  {
  }

  /** Every valid position of the default 5 x 4 grid is one of its 20 cells. */
  lemma DefaultGridCells(p: GridPosition)
    ensures p.IsValid(HomeScreenLayout().gridRows, HomeScreenLayout().gridCols)
        <==> p.row in {0, 1, 2, 3, 4} && p.col in {0, 1, 2, 3}
  {
  }
}
