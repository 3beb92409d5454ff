/** What `json.loads` makes of a model's completion text, as far as the pipeline looks at it. */
module JsonValues {
  /** A member value: a string, or any other JSON value (number, null, list, object). */
  datatype JsonValue = JString(s: string) | JOther

  datatype Json =
    | Unparseable                              // `json.loads` raises
    | Object(fields: map<string, JsonValue>)   // a JSON object
    | NonObject                                // any other JSON value: `.get` raises
}
