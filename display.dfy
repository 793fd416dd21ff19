/**
 * What each task card shows about its status: the badge's colour classes
 * (`getStatusColor`) and the badge text (`task.status.replace('_', ' ')`).
 */
module Display {
  import opened Types
  import JsString

  const Green := "bg-green-100 text-green-800"
  const Yellow := "bg-yellow-100 text-yellow-800"
  const Gray := "bg-gray-100 text-gray-800"

  /**
   * The `switch` on the status literal: "DONE" is green, "IN_PROGRESS"
   * yellow, and every other string gray through the `default` branch.
   */
  function ColorForName(name: string): (r: string)
    ensures r == Green <==> name == "DONE"
    ensures r == Yellow <==> name == "IN_PROGRESS"
    ensures r == Gray <==> name != "DONE" && name != "IN_PROGRESS"
  {
    if name == "DONE" then Green
    else if name == "IN_PROGRESS" then Yellow
    else Gray
  }

  /**
   * `getStatusColor(status)`: DONE green, IN_PROGRESS yellow, and TO_DO gray
   * through the default branch.
   */
  function StatusColor(s: TaskStatus): (r: string)
    ensures r == Green <==> s == Done
    ensures r == Yellow <==> s == InProgress
    ensures r == Gray <==> s == ToDo
  {
    ColorForName(StatusName(s))
  }

  /** No two statuses share a colour. */
  lemma StatusColorInjective(s: TaskStatus, t: TaskStatus)
    ensures StatusColor(s) == StatusColor(t) <==> s == t
  {
  }

  /** Any string that is not a known literal falls to the default gray. */
  lemma UnknownNameIsGray(name: string)
    requires ParseStatus(name).None?
    ensures ColorForName(name) == Gray
  {
  }

  /** The badge text: the first underscore of the literal becomes a space. */
  function BadgeLabel(s: TaskStatus): (r: string)
    ensures |r| == |StatusName(s)|
  {
    JsString.ReplaceFirst(StatusName(s), '_', ' ')
  }

  /** The badge texts: `TO DO`, `IN PROGRESS` and `DONE`. */
  lemma BadgeLabels(s: TaskStatus)
    ensures s == ToDo ==> BadgeLabel(s) == "TO DO"
    ensures s == InProgress ==> BadgeLabel(s) == "IN PROGRESS"
    ensures s == Done ==> BadgeLabel(s) == "DONE"
  {
    match s
    case ToDo => UnderscoreSecond(StatusName(s), "TO DO");
    case InProgress => UnderscoreSecond(StatusName(s), "IN PROGRESS");
    case Done => assert '_' !in StatusName(s);
  }

  /** A literal whose first underscore is its third character gets a space there. */
  lemma UnderscoreSecond(name: string, text: string)
    requires |name| == |text| > 2 && name[2] == '_' && name[0] != '_' && name[1] != '_'
    requires text == name[2 := ' ']
    ensures JsString.ReplaceFirst(name, '_', ' ') == text
  {
  }
}
