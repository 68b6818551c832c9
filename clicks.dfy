// Dash callback inputs shared by the tabs: Plotly click payloads, button
// click counts and the two-button view switches.

module Clicks {
  import opened Common

  /** One clicked point of a Plotly figure: each key may be missing. */
  datatype Point = Point(location: Option<string>, hovertext: Option<string>, customdata: Option<seq<string>>)

  /** A click payload: `points` may be missing (`None`) or an empty list. */
  datatype ClickData = ClickData(points: Option<seq<Point>>)

  /** A click payload with a non-empty list of points (`clickData and
      clickData.get("points")` is truthy). */
  predicate HasPoints(click: Option<ClickData>)
  {
    click.Some? && click.value.points.Some? && |click.value.points.value| > 0
  }

  /** The first clicked point, when there is one. */
  function FirstPoint(click: Option<ClickData>): Point
    requires HasPoints(click)
  {
    click.value.points.value[0]
  }

  /** A button's `n_clicks`: `None` before the first click; Python treats
      `None` and `0` as false. */
  predicate Truthy(n: Option<int>)
  {
    n.Some? && n.value != 0
  }

  /** `toggle_corr_modal` and `toggle_modal_gdp`: a click on the open or the
      close button flips the modal, otherwise it keeps its state. */
  function ToggleModal(n1: Option<int>, n2: Option<int>, isOpen: bool): (r: bool)
    ensures Truthy(n1) || Truthy(n2) ==> r == !isOpen
    ensures !Truthy(n1) && !Truthy(n2) ==> r == isOpen
  {
    if Truthy(n1) || Truthy(n2) then !isOpen else isOpen
  }

  /** Two clicks' worth of toggling bring the modal back to where it was. */
  lemma ToggleModalTwice(n1: Option<int>, n2: Option<int>, m1: Option<int>, m2: Option<int>, isOpen: bool)
    requires Truthy(n1) || Truthy(n2)
    requires Truthy(m1) || Truthy(m2)
    ensures ToggleModal(m1, m2, ToggleModal(n1, n2, isOpen)) == isOpen
  {
  }

  const Primary: string := "primary"
  const OutlinePrimary: string := "outline-primary"

  /** The GDP/Life view switch (`toggle_view_mode` of the correlation tab,
      `toggle_tab2_view_mode` of the economy tab): the view is "life" only
      when the life button triggered the callback, otherwise "gdp"; the
      active button is solid and the other outlined. */
  function ToggleView(trigger: Option<string>, lifeButton: string): (r: (string, string, string))
    ensures r.0 == "life" <==> trigger == Some(lifeButton)
    ensures r.0 == "life" || r.0 == "gdp"
    ensures r.1 == Primary <==> r.0 == "gdp"
    ensures r.2 == Primary <==> r.0 == "life"
    ensures {r.1, r.2} == {Primary, OutlinePrimary}
  {
    if trigger == Some(lifeButton) then ("life", OutlinePrimary, Primary)
    else ("gdp", Primary, OutlinePrimary)
  }
}
