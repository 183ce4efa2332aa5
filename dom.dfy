/** The part of the page the markup builders read and write. */
module Dom {
  import opened JsonValue

  /** The page, reduced to its `script[type='application/ld+json']` elements in document order. */
  class Document {
    var ldJsonScripts: seq<ScriptText>

    constructor (scripts: seq<ScriptText>)
      ensures ldJsonScripts == scripts
    {
      ldJsonScripts := scripts;
    }
  }
}
