/** What the language pipeline hands the rules: a tokenised document and the
    spans its URL matcher reports. How text is tokenised is not modelled; the
    pipeline is a parameter of the model. */
module Nlp {

  /** A processed comment: its text and the texts of its tokens, in order. */
  datatype Doc = Doc(text: string, tokens: seq<string>)

  /** A matcher hit: the name of the pattern that matched and the text of the matched span. */
  datatype Match = Match(name: string, text: string)
}
