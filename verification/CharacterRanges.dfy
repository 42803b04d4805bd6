/** The character-set search of the generated lexer. */
module CharacterRanges {

  datatype CharacterRange = CharacterRange(start: int, end: int) {
    predicate Holds(c: int) { start <= c <= end }
  }

  /** Ranges in ascending order without overlap. */
  ghost predicate SortedDisjoint(ranges: seq<CharacterRange>) {
    && (forall i | 0 <= i < |ranges| :: ranges[i].start <= ranges[i].end)
    && (forall i, j | 0 <= i < j < |ranges| :: ranges[i].end < ranges[j].start)
  }

  ghost predicate Contains(ranges: seq<CharacterRange>, c: int) {
    exists i | 0 <= i < |ranges| :: ranges[i].Holds(c)
  }

  /** True only for a character of some range; on a sorted disjoint table, true
      for every such character. The table must not be empty: its first entry is
      read in any case. */
  method SetContains(ranges: seq<CharacterRange>, lookahead: int) returns (found: bool)
    requires ranges != []
    ensures found ==> Contains(ranges, lookahead)
    ensures SortedDisjoint(ranges) ==> (found <==> Contains(ranges, lookahead))
  {
    var index := 0;
    var size := |ranges| - index;
    while size > 1
      invariant 0 <= index && 1 <= size && index + size <= |ranges|
      invariant SortedDisjoint(ranges) ==>
                  forall i | 0 <= i < |ranges| && ranges[i].Holds(lookahead) :: index <= i < index + size
    {
      var halfSize := size / 2;
      var midIndex := index + halfSize;
      var range := ranges[midIndex];
      if lookahead >= range.start && lookahead <= range.end {
        assert ranges[midIndex].Holds(lookahead);
        return true;
      } else if lookahead > range.end {
        index := midIndex;
      }
      size := size - halfSize;
    }
    var range := ranges[index];
    found := lookahead >= range.start && lookahead <= range.end;
    assert found <==> ranges[index].Holds(lookahead);
  }
}
