/**
 * The hover restyling of Main.js (lines 177-195): every dataset but the
 * hovered one is drawn in a faded colour, and the hovered one with a wider
 * line. `hovered` is `hoveredDatasetIndex`, `None` for `null`.
 */
module Hover {
  import opened Wrappers
  import opened Text
  import opened Grouping
  import opened Colors
  import opened Series
  import opened ChartFacts

  /** Whether an optional string property is truthy: present and not empty. */
  predicate Truthy(s: Option<string>) {
    s.Some? && s.value != ""
  }

  /** `color ? getFadedColor(color, opacity) : fallback`. */
  function FadeOr(color: Option<string>, opacity: string, fallback: string): string {
    if Truthy(color) then FadedColor(color.value, opacity) else fallback
  }

  /** `hoveredDatasetIndex === null || hoveredDatasetIndex === index`. */
  predicate KeepsColor(hovered: Option<nat>, index: nat) {
    hovered.None? || hovered == Some(index)
  }

  /** One element of `fadedDatasets` (lines 177-185). */
  function Faded(d: Dataset, index: nat, hovered: Option<nat>): Dataset {
    var fadedBorderColor := FadeOr(d.borderColor, "0.5", "rgba(0, 0, 0, 0.5)");
    var fadedBackgroundColor := FadeOr(d.backgroundColor, "0.1", "rgba(0, 0, 0, 0.1)");
    d.(borderColor := if KeepsColor(hovered, index) then d.borderColor else Some(fadedBorderColor),
       backgroundColor := if KeepsColor(hovered, index) then d.backgroundColor else Some(fadedBackgroundColor))
  }

  function FadedDatasets(ds: seq<Dataset>, hovered: Option<nat>): (r: seq<Dataset>)
    ensures |r| == |ds|
  {
    seq(|ds|, i requires 0 <= i < |ds| => Faded(ds[i], i, hovered))
  }

  /** One dataset of `chartDataWithStyle` (lines 189-194), given its element of `fadedDatasets`. */
  function Styled(d: Dataset, faded: Dataset, index: nat, hovered: Option<nat>): Dataset {
    var isHovered := hovered == Some(index);
    d.(borderWidth := Some(if isHovered then 12 else 4),
       borderColor := if isHovered then d.borderColor else faded.borderColor,
       backgroundColor := if isHovered then d.backgroundColor else faded.backgroundColor)
  }

  /** `chartDataWithStyle`: the chart with every dataset restyled. */
  function StyleChart(c: Chart, hovered: Option<nat>): Chart {
    var faded := FadedDatasets(c.datasets, hovered);
    c.(datasets := seq(|c.datasets|, i requires 0 <= i < |c.datasets| => Styled(c.datasets[i], faded[i], i, hovered)))
  }

  /**
   * Restyling keeps the labels and the number of datasets, and each dataset's
   * label, data and fill.
   */
  lemma StyleKeepsData(c: Chart, hovered: Option<nat>)
    ensures var s := StyleChart(c, hovered);
      && s.labels == c.labels
      && |s.datasets| == |c.datasets|
      && forall i :: 0 <= i < |c.datasets| ==>
           s.datasets[i].name == c.datasets[i].name &&
           s.datasets[i].data == c.datasets[i].data &&
           s.datasets[i].fill == c.datasets[i].fill
  {
  }

  /** The border is 12 wide exactly at the hovered index and 4 wide everywhere else. */
  lemma StyleWidth(c: Chart, hovered: Option<nat>)
    ensures var s := StyleChart(c, hovered);
      forall i :: 0 <= i < |s.datasets| ==>
        s.datasets[i].borderWidth.Some? &&
        (s.datasets[i].borderWidth.value == 12 <==> hovered == Some(i)) &&
        (s.datasets[i].borderWidth.value != 12 ==> s.datasets[i].borderWidth.value == 4)
  {
  }

  /**
   * With nothing hovered every dataset keeps its colours; the hovered dataset
   * keeps its colours; every other dataset gets the faded colours.
   */
  lemma StyleColors(c: Chart, hovered: Option<nat>)
    ensures var s := StyleChart(c, hovered);
      forall i :: 0 <= i < |c.datasets| ==>
        var d, e := c.datasets[i], s.datasets[i];
        (KeepsColor(hovered, i) ==> e.borderColor == d.borderColor && e.backgroundColor == d.backgroundColor) &&
        (!KeepsColor(hovered, i) ==>
           e.borderColor == Some(FadeOr(d.borderColor, "0.5", "rgba(0, 0, 0, 0.5)")) &&
           e.backgroundColor == Some(FadeOr(d.backgroundColor, "0.1", "rgba(0, 0, 0, 0.1)")))
  {
  }

  lemma ColorTextTruthy(color: Rgb)
    ensures Truthy(Some(ColorText(color)))
  {
    assert ColorText(color)[0] == '#';
  }

  /**
   * Joining the opacity as its own piece gives the same text as writing it into
   * the literal; proved apart so that the string reasoning stays small.
   */
  lemma OpacityText(r: string, g: string, b: string)
    ensures "rgba(" + r + ", " + g + ", " + b + ", " + "0.5" + ")" == "rgba(" + r + ", " + g + ", " + b + ", 0.5)"
  {
  }

  /** The faded border of a `#rrggbb` colour keeps its channels at opacity 0.5. */
  lemma FadedBorder(color: Rgb)
    ensures FadeOr(Some(ColorText(color)), "0.5", "rgba(0, 0, 0, 0.5)") ==
            "rgba(" + Decimal(color.red) + ", " + Decimal(color.green) + ", " + Decimal(color.blue) + ", 0.5)"
  {
    ColorTextTruthy(color);
    FadedColorKeepsChannels(color, "0.5");
    OpacityText(Decimal(color.red), Decimal(color.green), Decimal(color.blue));
  }

  /**
   * On the chart the callback built, a dataset faded by hovering another one is
   * drawn in its own three channels at opacity 0.5, with the black 0.1 fallback
   * background, since the datasets carry no background colour.
   */
  lemma StyledChartColors(source: seq<Record>, numLanguages: nat, palette: nat -> Rgb, h: nat, i: nat)
    requires source != []
    requires i < |ChartFrom(source, numLanguages, palette).datasets| && h != i
    ensures var s := StyleChart(ChartFrom(source, numLanguages, palette), Some(h));
            var color := palette(i);
      && s.datasets[i].borderColor ==
           Some("rgba(" + Decimal(color.red) + ", " + Decimal(color.green) + ", " + Decimal(color.blue) + ", 0.5)")
      && s.datasets[i].backgroundColor == Some("rgba(0, 0, 0, 0.1)")
  {
    var c := ChartFrom(source, numLanguages, palette);
    ChartDatasetsAt(source, numLanguages, palette);
    var d := c.datasets[i];
    assert d.borderColor == Some(ColorText(palette(i))) && d.backgroundColor == None;
    var s := StyleChart(c, Some(h));
    assert s.datasets[i] == Styled(d, Faded(d, i, Some(h)), i, Some(h));
    FadedBorder(palette(i));
  }
}
