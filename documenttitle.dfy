/**
 * `useDocumentTitle(title, revertOnUnmount)`: the effect writes `title` to
 * `document.title`; its cleanup writes back the title read at render time
 * when `revertOnUnmount` holds. Without a document nothing is written.
 */
module DocumentTitle {

  /** The render-time capture `defaultTitle`. */
  function DefaultTitle(hasDocument: bool, current: string): string
  {
    if hasDocument then current else ""
  }

  /** `document.title` after the effect body. */
  function AfterSetup(hasDocument: bool, current: string, title: string): string
  {
    if hasDocument then title else current
  }

  /** `document.title` after the cleanup. */
  function AfterTeardown(hasDocument: bool, revertOnUnmount: bool, current: string, defaultTitle: string): string
  {
    if revertOnUnmount && hasDocument then defaultTitle else current
  }

  /**
   * With the default read just before the effect runs, a reverting cleanup
   * after the effect leaves the title as it was; without revert the effect's
   * title stays; without a document nothing is ever written.
   */
  lemma MountUnmountRestores(hasDocument: bool, revertOnUnmount: bool, before: string, title: string)
    ensures var after := AfterTeardown(hasDocument, revertOnUnmount,
                                       AfterSetup(hasDocument, before, title),
                                       DefaultTitle(hasDocument, before));
            (revertOnUnmount ==> after == before) &&
            (!revertOnUnmount && hasDocument ==> after == title) &&
            (!hasDocument ==> after == before)
  {
  }

  /** Without a document the captured default is "" and neither phase writes the title. */
  lemma NoDocumentWritesNothing(revertOnUnmount: bool, current: string, title: string, defaultTitle: string)
    ensures DefaultTitle(false, current) == ""
    ensures AfterSetup(false, current, title) == current
    ensures AfterTeardown(false, revertOnUnmount, current, defaultTitle) == current
  {
  }

  /** A cleanup that does not revert leaves whatever title the document has. */
  lemma NoRevertLeavesTitle(hasDocument: bool, current: string, defaultTitle: string)
    ensures AfterTeardown(hasDocument, false, current, defaultTitle) == current
  {
  }

  /** The hook with the `document.title` port. */
  class DocumentTitleHook {
    const hasDocument: bool
    const title: string
    const revertOnUnmount: bool
    const defaultTitle: string
    var documentTitle: string

    /** A render: captures `defaultTitle` from the current document title. */
    constructor (hasDocument: bool, documentTitle: string, title: string, revertOnUnmount: bool)
      ensures this.hasDocument == hasDocument && this.title == title && this.revertOnUnmount == revertOnUnmount
      ensures this.documentTitle == documentTitle
      ensures defaultTitle == DefaultTitle(hasDocument, documentTitle)
    {
      this.hasDocument := hasDocument;
      this.title := title;
      this.revertOnUnmount := revertOnUnmount;
      this.documentTitle := documentTitle;
      defaultTitle := DefaultTitle(hasDocument, documentTitle);
    }

    /** The effect body. */
    method Setup()
      modifies this
      ensures documentTitle == AfterSetup(hasDocument, old(documentTitle), title)
    {
      documentTitle := AfterSetup(hasDocument, documentTitle, title);
    }

    /** The cleanup. */
    method Teardown()
      modifies this
      ensures documentTitle == AfterTeardown(hasDocument, revertOnUnmount, old(documentTitle), defaultTitle)
    {
      documentTitle := AfterTeardown(hasDocument, revertOnUnmount, documentTitle, defaultTitle);
    }
  }

  /** Render, effect, then cleanup: a reverting hook leaves the title as it found it. */
  method Lifecycle(hasDocument: bool, documentTitle: string, title: string, revertOnUnmount: bool)
    returns (finalTitle: string)
    ensures revertOnUnmount ==> finalTitle == documentTitle
    ensures !revertOnUnmount && hasDocument ==> finalTitle == title
    ensures !hasDocument ==> finalTitle == documentTitle
  {
    var h := new DocumentTitleHook(hasDocument, documentTitle, title, revertOnUnmount);
    h.Setup();
    h.Teardown();
    finalTitle := h.documentTitle;
  }
}
