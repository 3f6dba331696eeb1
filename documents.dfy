/** Store documents: a document is a map from field names to field values,
    as the document store hands them to the app. */
module Documents {
  import opened Wrappers

  /** The kinds of field value the app writes and reads back. `Other` stands
      for any value of a type the app never writes (a double, a timestamp, ...). */
  datatype Value = Str(s: string) | Bool(b: bool) | Long(n: int) | Other

  type Document = map<string, Value>

  /** `map[field] as? String`: the field's value when it is a string. */
  function StringField(d: Document, field: string): (r: Option<string>)
    ensures r.Some? <==> field in d && d[field].Str?
    ensures r.Some? ==> d[field] == Str(r.value)
  {
    if field in d && d[field].Str? then Some(d[field].s) else None
  }

  /** `map[field] as? Boolean` */
  function BoolField(d: Document, field: string): (r: Option<bool>)
    ensures r.Some? <==> field in d && d[field].Bool?
    ensures r.Some? ==> d[field] == Bool(r.value)
  {
    if field in d && d[field].Bool? then Some(d[field].b) else None
  }

  /** `map[field] as? Long` */
  function LongField(d: Document, field: string): (r: Option<int>)
    ensures r.Some? <==> field in d && d[field].Long?
    ensures r.Some? ==> d[field] == Long(r.value)
  {
    if field in d && d[field].Long? then Some(d[field].n) else None
  }
}
