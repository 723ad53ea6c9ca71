/** The ten series colours both chart views cycle through. */
module Palette {

  const Colors: seq<string> := [
    "#ff6b9d", "#4ecdc4", "#45b7d1", "#96ceb4", "#feca57",
    "#ff9ff3", "#54a0ff", "#5f27cd", "#00d2d3", "#ff9f43"
  ]

  /**
   The ranking view's colour for the series at position `index`: the palette
   in order for the first ten series, then starting over.
   */
  function ColorAt(index: nat): (r: string)
    ensures r in Colors
    ensures index < |Colors| ==> r == Colors[index]
  {
    Colors[index % |Colors|]
  }

  /** Colours repeat with the palette's length: series `index` and `index + 10` look alike. */
  lemma ColorCycle(index: nat)
    ensures ColorAt(index + |Colors|) == ColorAt(index)
  {
    assert |Colors| == 10;
    assert (index + 10) % 10 == index % 10;
  }
}
