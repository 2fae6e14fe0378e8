/**
  `toggleChart`: flips the inline `style.display` of the element whose id is
  the chart id followed by "Container". A display of "none", or the empty
  string an element has before any inline display is set, becomes "block";
  every other value becomes "none".
*/
module ChartToggle {

  /** The display value after one toggle: always "block" or "none". */
  function Toggled(display: string): (r: string)
    ensures r == "block" || r == "none"
    ensures r == "block" <==> display == "none" || display == ""
  {
    if display == "none" || display == "" then "block" else "none"
  }

  /** Toggling a shown or hidden container twice puts it back as it was. */
  lemma ToggleTwice(display: string)
    requires display == "block" || display == "none"
    ensures Toggled(Toggled(display)) == display
  {
  }

  /** After one toggle, the next toggles alternate between "block" and "none". */
  lemma ToggleAlternates(display: string)
    ensures Toggled(Toggled(display)) != Toggled(display)
    ensures Toggled(Toggled(Toggled(display))) == Toggled(display)
  {
  }

  /** The id of a chart's container: the chart id followed by "Container". */
  function ContainerId(chartId: string): (id: string)
    ensures |id| == |chartId| + 9
    ensures id[..|chartId|] == chartId && id[|chartId|..] == "Container"
  {
    chartId + "Container"
  }

  /** Different charts have different containers, so a toggle never reaches another chart. */
  lemma ContainerIdInjective(a: string, b: string)
    requires a != b
    ensures ContainerId(a) != ContainerId(b)
  {
    if |a| == |b| {
      assert ContainerId(a)[..|a|] != ContainerId(b)[..|b|];
    }
  }

  /** The page, as the inline `style.display` of each element, by element id. */
  class Page {
    var display: map<string, string>

    constructor (display: map<string, string>)
      ensures this.display == display
    {
      this.display := display;
    }

    /**
      Toggles the chart's container. When the page has no element with the
      container's id, the script fails reading `style` of `null`: the model
      reports `found == false` and changes nothing.
    */
    method ToggleChart(chartId: string) returns (found: bool)
      modifies this
      ensures found <==> ContainerId(chartId) in old(display)
      ensures found ==> display == old(display)[ContainerId(chartId) := Toggled(old(display)[ContainerId(chartId)])]
      ensures !found ==> display == old(display)
    {
      var containerId := ContainerId(chartId);
      found := containerId in display;
      if found {
        if display[containerId] == "none" || display[containerId] == "" {
          display := display[containerId := "block"];
        } else {
          display := display[containerId := "none"];
        }
      }
    }
  }
}
