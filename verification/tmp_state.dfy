/** `TmpState`: a state as the map loader hands it to the generators. */
module TmpStates {

  datatype TmpState = TmpState(id: int, isImpassable: bool, victoryPoint: int, adjacencies: set<int>)
}
