/** Serialization, left abstract: any encoding that can be decoded from the front of a longer
    sequence of bytes. */
module Codecs {
  import opened LsmTypes

  /** `decode` returns the value at the front and the number of bytes it takes. */
  datatype Codec<!M(!new), !B(!new)> = Codec(encode: M -> seq<B>, decode: seq<B> -> Option<(M, nat)>)
  {
    ghost predicate Valid() { forall m, rest :: decode(encode(m) + rest) == Some((m, |encode(m)|)) }
  }
}
