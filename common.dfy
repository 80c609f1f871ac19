/** Small value types shared by every part of the task manager client. */
module Common {

  /** A value that may be absent: `undefined` or `null` on the TypeScript side. */
  datatype Option<+T> = None | Some(value: T) {

    /** The value, or `default` when absent (`x ?? default`). */
    function GetOr(default: T): T {
      match this
      case Some(v) => v
      case None => default
    }
  }

  /** What an Observable's error callback receives. The callbacks in this
      client only ask whether it is a string (`typeof error === 'string'`). */
  datatype Thrown = ThrownString(text: string) | ThrownOther
}
