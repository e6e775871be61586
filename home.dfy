/**
 * The home screen (src/app/page.tsx): choose a PDF, show its pages with a
 * "Keep this page" checkbox each, and send the file with the kept pages to
 * the edit endpoint. Each handler is one atomic update of the component's
 * state; the state is a `HomeScreen` object.
 */
module Home {
  import opened Wrappers
  import opened Selection
  import OrderPayload

  /** The chosen file, forwarded as it is: the model never looks inside it. */
  datatype PdfFile = PdfFile(bytes: seq<bv8>)

  /** The multipart body and header of the delete request. */
  datatype EditRequest = EditRequest(pdfFile: PdfFile, newOrder: string, authorization: string)

  const FileRequired: string := "PDF file is required"
  const DeleteLabel: string := "Delete Pages and Download"
  const LoadingLabel: string := "Loading"

  /** `!token || token === 'null'`: the home screen sends the user to /login.
      `None` is the `null` that `localStorage.getItem` returns for a missing key. */
  predicate RedirectsToLogin(token: Option<string>) {
    token.None? || token.value == "" || token.value == "null"
  }

  /** `pdfFile && token != null && token !== undefined`: the guard of the delete request. */
  predicate CanSendDelete(pdfFile: Option<PdfFile>, token: Option<string>) {
    pdfFile.Some? && token.Some?
  }

  class HomeScreen {
    var pdfFile: Option<PdfFile>
    var error: Option<string>
    var showPDF: bool
    var numPages: Option<nat>
    var checkedPages: seq<int>
    var buttonText: string

    /** `checkedPages` is empty until a page count is known, and afterwards a
        duplicate-free list of indices of that document's pages. */
    predicate Valid()
      reads this
    {
      match numPages
      case None => checkedPages == []
      case Some(n) => ValidSelection(checkedPages, n)
    }

    /** The `useState` initial values. */
    constructor ()
      ensures Valid()
      ensures pdfFile == None && error == None && !showPDF
      ensures numPages == None && checkedPages == [] && buttonText == DeleteLabel
    {
      pdfFile := None;
      error := None;
      showPDF := false;
      numPages := None;
      checkedPages := [];
      buttonText := DeleteLabel;
    }

    /** `handleFileChange`: `file` is `e.target.files?.[0]`, absent when nothing was picked. */
    method HandleFileChange(file: Option<PdfFile>)
      modifies this`pdfFile, this`error
      ensures pdfFile == file && error == None
    {
      pdfFile := file;
      error := None;
    }

    /** `onDocumentLoadSuccess`: the PDF reports its page count; every page is kept. */
    method OnDocumentLoadSuccess(n: nat)
      modifies this`numPages, this`checkedPages
      ensures numPages == Some(n) && checkedPages == AllPages(n)
      ensures Valid()
      ensures forall p :: IsChecked(checkedPages, p) <==> 0 <= p < n
    {
      numPages := Some(n);
      checkedPages := AllPages(n);
      AllPagesIsFullSelection(n);
    }

    /** `handleSubmit` of the upload form: refuses without a file, else shows the pages. */
    method HandleSubmit()
      modifies this`error, this`showPDF
      ensures pdfFile.None? ==> error == Some(FileRequired) && showPDF == old(showPDF)
      ensures pdfFile.Some? ==> error == old(error) && showPDF
    {
      if pdfFile.None? {
        error := Some(FileRequired);
        return;
      }
      showPDF := true;
    }

    /** `handleCheckboxChange(pageNumber)`. The screen renders checkboxes only for
        pages 0 .. numPages-1, and from those the invariant is kept. */
    method HandleCheckboxChange(pageNumber: int)
      modifies this`checkedPages
      ensures checkedPages == Toggle(old(checkedPages), pageNumber)
      ensures old(Valid()) && numPages.Some? && 0 <= pageNumber < numPages.value ==> Valid()
    {
      if Valid() && numPages.Some? && 0 <= pageNumber < numPages.value {
        ToggleKeepsValid(checkedPages, numPages.value, pageNumber);
      }
      checkedPages := Toggle(checkedPages, pageNumber);
    }

    /** `handleDeleteClick`: the button reads "Loading"; only with a file and a
        token is the request sent, carrying `checkedPages` in its current order,
        and only then does the label come back. */
    method HandleDeleteClick(token: Option<string>) returns (request: Option<EditRequest>)
      modifies this`buttonText
      ensures CanSendDelete(pdfFile, token) ==>
        request == Some(EditRequest(pdfFile.value, OrderPayload.Stringify(checkedPages), token.value))
      ensures !CanSendDelete(pdfFile, token) ==> request == None
      ensures buttonText == if request.Some? then DeleteLabel else LoadingLabel
    {
      buttonText := LoadingLabel;
      request := None;
      if pdfFile.Some? && token.Some? {
        var newOrder := OrderPayload.Stringify(checkedPages);
        request := Some(EditRequest(pdfFile.value, newOrder, token.value));
        buttonText := DeleteLabel;
      }
    }
  }

  /** The delete guard checks only that a token string exists: it lets through
      the values "" and "null", for which the screen itself redirects to login. */
  lemma DeleteGuardAcceptsLoggedOutTokens(file: PdfFile)
    ensures CanSendDelete(Some(file), Some("null")) && RedirectsToLogin(Some("null"))
    ensures CanSendDelete(Some(file), Some("")) && RedirectsToLogin(Some(""))
    ensures forall t :: !RedirectsToLogin(t) ==> CanSendDelete(Some(file), t)
  {
  }

  /** From a fresh screen: load three pages, uncheck and recheck page 0, and
      delete: the request names the pages [1, 2, 0], in toggle order (the text
      "[1,2,0]", by `OrderPayload.StringifyExample`). */
  method DeleteAfterRecheckScenario(file: PdfFile, token: string)
  {
    var screen := new HomeScreen();
    screen.HandleFileChange(Some(file));
    screen.OnDocumentLoadSuccess(3);
    screen.HandleCheckboxChange(0);
    screen.HandleCheckboxChange(0);
    ToggleOrderExample();
    assert screen.checkedPages == [1, 2, 0];
    var request := screen.HandleDeleteClick(Some(token));
    assert request == Some(EditRequest(file, OrderPayload.Stringify(screen.checkedPages), token));
  }
}
