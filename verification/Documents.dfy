/** The document model (crates/core/src/types.rs).  Text is a sequence of UTF-8 code units, so that
    its length is the length the engine measures.  A floating-point field is its 64-bit pattern: it
    is stored and handed back, and nothing here calculates with it. */
module Documents {
  import opened Base

  datatype Value = Str(s: string) | Number(bits: u64) | Flag(b: bool) | StringArray(ss: seq<string>)

  datatype Document =
    Document(id: u64, title: string, description: string, price: u64, category: string, attributes: map<string, Value>)
}
