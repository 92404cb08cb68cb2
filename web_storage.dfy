/** The browser's `localStorage` as this layer sees it: each key holds
    serialised text that is either absent, unparsable, or the JSON encoding
    of a value of the expected type. Serialisation itself is not modelled. */
module WebStorage {

  /** The contents of one `localStorage` key. */
  datatype Slot<T> =
    | Absent            // `getItem` returns null (or the empty string)
    | Corrupt           // `JSON.parse` throws on the stored text
    | Stored(value: T)  // the text parses to a value of the expected type
  {
    /** Reading a key with a fallback: the stored value, or `default` when
        the key is absent or its text does not parse. */
    function ReadOr(default: T): (v: T)
      ensures Stored? ==> v == value
      ensures !Stored? ==> v == default
    {
      if Stored? then value else default
    }
  }

  /** What `localStorage.setItem` does: store the text, or throw when the
      browser's storage quota is exhausted. */
  datatype WriteOutcome = Written | QuotaExceeded
}
