/**
 * The constructors of `ActionContent`, the result record of the protocol package, and of its
 * generic subclass `ActionContent<T>`, which adds a value. A field the constructor leaves
 * unset keeps its default: 0 for the state, `null` (`None`) for the description, and
 * `default(T)` (`None`) for the value, which is `null` only for a reference or nullable `T`.
 */
module Protocol {
  import opened Wrappers
  import opened Machine

  datatype ActionContent = ActionContent(state: Int32, desc: Option<string>)

  /** `ActionContent<T>`: the base fields and the value. */
  datatype ValueContent<T> = ValueContent(content: ActionContent, value: Option<T>)

  /** `System.Net.HttpStatusCode`: an enum whose underlying value is an `int`. */
  datatype HttpStatusCode = HttpStatusCode(code: Int32)

  /** `desc ?? string.Empty` */
  function DescOrEmpty(desc: Option<string>): (r: string)
    ensures desc.Some? ==> r == desc.value
    ensures desc.None? ==> r == ""
  {
    desc.GetOr("")
  }

  /** `new ActionContent()` */
  function NewContent(): (r: ActionContent)
    ensures r.state == 0 && r.desc.None?
  {
    ActionContent(0, None)
  }

  /** `new ActionContent(state)` */
  function ContentOf(state: Int32): (r: ActionContent)
    ensures r.state == state && r.desc == Some("")
  {
    ActionContent(state, Some(""))
  }

  /** `new ActionContent(state, desc)` */
  function ContentWith(state: Int32, desc: Option<string>): (r: ActionContent)
    ensures r.state == state && r.desc == Some(DescOrEmpty(desc))
  {
    ActionContent(state, Some(DescOrEmpty(desc)))
  }

  /** `new ActionContent(statusCode)` */
  function ContentOfStatus(statusCode: HttpStatusCode): (r: ActionContent)
    ensures r.state == statusCode.code && r.desc == Some("")
  {
    ActionContent(statusCode.code, Some(""))
  }

  /** `new ActionContent(statusCode, desc)` */
  function ContentWithStatus(statusCode: HttpStatusCode, desc: Option<string>): (r: ActionContent)
    ensures r.state == statusCode.code && r.desc == Some(DescOrEmpty(desc))
  {
    ActionContent(statusCode.code, Some(DescOrEmpty(desc)))
  }

  /** `new ActionContent<T>()` */
  function NewValueContent<T>(): (r: ValueContent<T>)
    ensures r.content == NewContent() && r.value.None?
  {
    ValueContent(ActionContent(0, None), None)
  }

  /** `new ActionContent<T>(state)` */
  function ValueContentOf<T>(state: Int32): (r: ValueContent<T>)
    ensures r.content == ContentOf(state) && r.value.None?
  {
    ValueContent(ActionContent(state, Some("")), None)
  }

  /** `new ActionContent<T>(state, desc)` */
  function ValueContentWith<T>(state: Int32, desc: Option<string>): (r: ValueContent<T>)
    ensures r.content == ContentWith(state, desc) && r.value.None?
  {
    ValueContent(ActionContent(state, Some(desc.GetOr(""))), None)
  }

  /** `new ActionContent<T>(state, desc, value)` */
  function ValueContentWithValue<T>(state: Int32, desc: Option<string>, value: Option<T>): (r: ValueContent<T>)
    ensures r.content == ContentWith(state, desc) && r.value == value
  {
    ValueContent(ActionContent(state, Some(desc.GetOr(""))), value)
  }

  /** `new ActionContent<T>(statusCode)` */
  function ValueContentOfStatus<T>(statusCode: HttpStatusCode): (r: ValueContent<T>)
    ensures r.content == ContentOfStatus(statusCode) && r.value.None?
  {
    ValueContent(ActionContent(statusCode.code, Some("")), None)
  }

  /** `new ActionContent<T>(statusCode, desc)` */
  function ValueContentWithStatus<T>(statusCode: HttpStatusCode, desc: Option<string>): (r: ValueContent<T>)
    ensures r.content == ContentWithStatus(statusCode, desc) && r.value.None?
  {
    ValueContent(ActionContent(statusCode.code, Some(desc.GetOr(""))), None)
  }

  /** `new ActionContent<T>(statusCode, desc, value)` */
  function ValueContentWithStatusValue<T>(statusCode: HttpStatusCode, desc: Option<string>, value: Option<T>): (r: ValueContent<T>)
    ensures r.content == ContentWithStatus(statusCode, desc) && r.value == value
  {
    ValueContent(ActionContent(statusCode.code, Some(desc.GetOr(""))), value)
  }

  /**
   * Only the parameterless constructors leave the description null; every other constructor
   * sets a description, the given one when it is non-null and "" otherwise.
   */
  lemma DescriptionNeverNull(state: Int32, statusCode: HttpStatusCode, desc: Option<string>)
    ensures NewContent().desc.None?
    ensures ContentOf(state).desc.Some? && ContentOfStatus(statusCode).desc.Some?
    ensures ContentWith(state, desc).desc.Some? && ContentWithStatus(statusCode, desc).desc.Some?
    ensures desc.Some? ==> ContentWith(state, desc).desc == desc
    ensures ContentWith(state, None) == ContentOf(state)
  {
  }

  /** A status-code constructor is the state constructor applied to the code's number. */
  lemma StatusCodeIsState(statusCode: HttpStatusCode, desc: Option<string>)
    ensures ContentOfStatus(statusCode) == ContentOf(statusCode.code)
    ensures ContentWithStatus(statusCode, desc) == ContentWith(statusCode.code, desc)
  {
  }
}
