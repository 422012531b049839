/** The values that appear in the metadata dictionaries attached to chunks and stored documents. */
module Metadata {

  /** A metadata value: a Python `str`, `int` or `bool`. */
  datatype MetaValue = MStr(s: string) | MInt(i: int) | MBool(b: bool)

  type MetaMap = map<string, MetaValue>
}
