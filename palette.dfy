/**
 * `generateDistinctColors`: the chart colours of a list of `count` slices,
 * taken in turn from a fixed palette of ten fill and border colours.
 */
module Palette {
  datatype ChartColor = ChartColor(bg: string, border: string)

  /** Red, orange, yellow, green, teal, cyan, blue, purple, pink, gray. */
  const Colors: seq<ChartColor> := [
    ChartColor("#dc3545", "#c82333"), ChartColor("#fd7e14", "#e55100"),
    ChartColor("#ffc107", "#e0a800"), ChartColor("#28a745", "#1e7e34"),
    ChartColor("#20c997", "#1aa085"), ChartColor("#17a2b8", "#117a8b"),
    ChartColor("#007bff", "#0056b3"), ChartColor("#6f42c1", "#5a32a3"),
    ChartColor("#e83e8c", "#d91a72"), ChartColor("#6c757d", "#545b62")]

  /** The colour of slice `i`. */
  function ColorAt(i: nat): ChartColor {
    Colors[i % |Colors|]
  }

  /** The loop `for (let i = 0; i < count; i++)` pushes one fill and one border colour per slice. */
  method GenerateDistinctColors(count: int) returns (backgroundColor: seq<string>, borderColor: seq<string>)
    ensures |backgroundColor| == |borderColor| == (if count < 0 then 0 else count)
    ensures forall i :: 0 <= i < |backgroundColor| ==> backgroundColor[i] == ColorAt(i).bg
    ensures forall i :: 0 <= i < |borderColor| ==> borderColor[i] == ColorAt(i).border
  {
    backgroundColor, borderColor := [], [];
    var i := 0;
    while i < count
      invariant 0 <= i && (count < 0 ==> i == 0) && (count >= 0 ==> i <= count)
      invariant |backgroundColor| == |borderColor| == i
      invariant forall j :: 0 <= j < i ==> backgroundColor[j] == ColorAt(j).bg
      invariant forall j :: 0 <= j < i ==> borderColor[j] == ColorAt(j).border
    {
      var colorIndex := i % |Colors|;
      backgroundColor := backgroundColor + [Colors[colorIndex].bg];
      borderColor := borderColor + [Colors[colorIndex].border];
      i := i + 1;
    }
  }

  /** The palette's ten fills are pairwise different, and so are its ten borders. */
  lemma PaletteDistinct()
    ensures |Colors| == 10
    ensures forall i, j :: 0 <= i < j < |Colors| ==> Colors[i].bg != Colors[j].bg && Colors[i].border != Colors[j].border
  {
  }

  /** Slices fewer than ten apart get different colours; slices ten apart the same one. */
  lemma ColorsRepeatEveryTen(i: nat, j: nat)
    ensures i < j < i + 10 ==> ColorAt(i).bg != ColorAt(j).bg && ColorAt(i).border != ColorAt(j).border
    ensures ColorAt(i + 10) == ColorAt(i)
  {
    PaletteDistinct();
    if i < j < i + 10 {
      assert i % 10 != j % 10;
    }
  }
}
