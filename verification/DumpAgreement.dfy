/** The three dumps of a run are one document. */
module DumpAgreement {
  import opened Options
  import opened DumpRun
  import Json = DumpJson
  import Xml = DumpXml
  import Tree = DumpTree

  /** For every run of one outermost visit, with any events: the JSON tokens are one value and the XML
      tokens one element without a repeated attribute, and both stand for the document that the property
      tree holds. */
  lemma DumpsAgree(flags: MetaFlags, run: seq<Call>)
    requires OneVisit(run)
    ensures var doc := Tree.DocFrom(Tree.RunSections(flags, run));
            && doc == Some(DocOf(flags, run))
            && (exists j ::
                  && Json.ParseValue(Json.Written(Json.RunJson(flags, run))) == Some(Json.Parsed(j, []))
                  && Json.DocFrom(j) == doc)
            && (exists e ::
                  && Xml.ParseElement(Xml.RunTokens(flags, run)) == Some(Xml.Parsed(e, []))
                  && Xml.UniqueAttributes(e) && Xml.DocFrom(e) == doc)
  {
    Tree.TreeDenotesDoc(flags, run);
    Json.DumpDenotesDoc(flags, run, Json.Written(Json.RunJson(flags, run)));
    Xml.RunParses(flags, run);
    Xml.DumpDenotesDoc(flags, run);
  }
}
