/** The display log: an ordered sequence of styled entries. */
module EventLog {

  /** The icon and colour a level is shown with. */
  datatype Style = Style(icon: string, color: string)

  /** One entry of the display log: the tag the text is inserted with (the
      level as given), the style it is shown in, and the text after the
      timestamp (icon, a space, the message). */
  datatype LogEntry = LogEntry(tag: string, style: Style, text: string)

  const Info := "info"
  const Warning := "warning"
  const Alert := "alert"

  const Styles: map<string, Style> := map[
    Info := Style("ℹ️", "#4CAF50"),
    Warning := Style("⚠️", "#FFC107"),
    Alert := Style("🚨", "#F44336")
  ]

  /** The style of a level; unknown levels borrow the style of `info`. */
  function StyleOf(level: string): (style: Style)
    ensures style in Styles.Values
    ensures level !in Styles ==> style == Styles[Info]
  {
    if level in Styles then Styles[level] else Styles[Info]
  }

  /** The message can be read back from the entry's text, behind the icon
      and a space. */
  function Entry(message: string, level: string): (entry: LogEntry)
    ensures entry.style in Styles.Values
    ensures |entry.text| == |entry.style.icon| + 1 + |message|
    ensures entry.text[|entry.style.icon| + 1..] == message
  {
    var style := StyleOf(level);
    LogEntry(level, style, style.icon + " " + message)
  }

  /** An entry keeps its level as tag, and its text is the message behind
      the style's icon; an unrecognised level is shown in the `info` style. */
  lemma EntryRendering(message: string, level: string)
    ensures Entry(message, level).tag == level
    ensures Entry(message, level).text == Entry(message, level).style.icon + " " + message
    ensures level !in {Info, Warning, Alert} ==> Entry(message, level).style == Style("ℹ️", "#4CAF50")
    ensures level in Styles ==> Entry(message, level).style == Styles[level]
  {
  }
}
