/** The text section a back end appends to. */
module CodeText {
  /** One 32-bit instruction word per entry. */
  class Text {
    var words: seq<bv32>

    constructor ()
      ensures words == []
    {
      words := [];
    }

    method O(w: bv32)
      modifies this
      ensures words == old(words) + [w]
    {
      words := words + [w];
    }
  }
}
