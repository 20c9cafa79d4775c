/** The options hash a caller passes to `Book.search`, with Ruby's notion of
    truthiness. Every key counts towards the hash's size, recognised or not. */
module Options {

  /** The Ruby values an option may hold. */
  datatype Value = Nil | Bool(boolValue: bool) | Int(intValue: int) | Str(strValue: string)

  /** Ruby truthiness: everything except `nil` and `false`. */
  predicate Truthy(v: Value) {
    !(v.Nil? || v == Bool(false))
  }

  /** `:title_only`, `:book_format_type_id`, `:book_format_physical`, or any other key. */
  datatype Key = TitleOnlyKey | BookFormatTypeIdKey | BookFormatPhysicalKey | OtherKey(name: string)

  type OptionsHash = map<Key, Value>

  /** `options[key]`: `nil` for a missing key. */
  function Get(o: OptionsHash, k: Key): Value {
    if k in o then o[k] else Nil
  }
}
