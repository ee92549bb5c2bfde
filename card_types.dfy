/** Values shared by the card-processing core of the Trello timer. */
module CardTypes {

  /** A Trello list id (a 24-character hexadecimal string in practice). */
  type ListId = string

  datatype Option<+T> = None | Some(value: T)

  /**
   * One entry of `listMove`: the card entered `list` at `time`
   * (milliseconds since the epoch, as `Date.prototype.getTime` returns).
   */
  datatype Move = Move(list: ListId, time: int)

  /**
   * One action of a card's history, as far as the timer looks at it:
   * `listAfter` is the id of `data.listAfter` when the action carries one,
   * `date` is the action's date in milliseconds since the epoch.
   */
  datatype Action = Action(listAfter: Option<ListId>, date: int)

  /** A card of a monitored list: its id and its name. */
  datatype Card = Card(id: string, name: string)

  /** One entry of the `monitorLists` configuration object: a list id and its display name. */
  datatype MonitoredList = MonitoredList(id: ListId, name: string)
}
