/**
 * The next-page rule for a Quasar `q-pagination` bar, written identically
 * in scraper1.py and scraper2.py as `go_to_next_page`: scroll down, wait
 * for the bar, take its LAST `q-btn`, and click it only if its icon reads
 * `keyboard_arrow_right`. Every exception is caught and reported as failure.
 */
module Pager {
  import opened Browser

  const NextIcon := "keyboard_arrow_right"

  /**
   * One `q-btn` of the bar: the `innerHTML` of its `<i>` icon (or the
   * exception `find_element` raised), and whether the script click raised.
   */
  datatype Button = Button(icon: Lookup<string>, clickRaises: bool)

  /** The button is the "next page" arrow: its icon, stripped, is `keyboard_arrow_right`. */
  predicate IsNextArrow(b: Button)
  {
    b.icon.Found? && Strip(b.icon.value) == NextIcon
  }

  /**
   * `go_to_next_page`. `bar` is what scrolling and waiting for the bar
   * produced: its buttons, or the exception raised on the way. The result
   * is the function's return value; it is true exactly when the last
   * button was clicked.
   */
  function GoToNextPage(bar: Lookup<seq<Button>>): (moved: bool)
    ensures bar.Raised? ==> !moved
    ensures bar.Found? && |bar.value| < 2 ==> !moved
    ensures bar.Found? && |bar.value| >= 2 ==>
              (moved <==> IsNextArrow(bar.value[|bar.value| - 1]) && !bar.value[|bar.value| - 1].clickRaises)
  {
    match bar
    case Raised(_) => false
    case Found(buttons) =>
      if |buttons| < 2 then false
      else
        var last := buttons[|buttons| - 1];
        match last.icon
        case Raised(_) => false
        case Found(html) => Strip(html) == NextIcon && !last.clickRaises
  }
}
