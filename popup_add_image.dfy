/**
 * The "Insert image" popup. Its DOM is reduced to plain fields: the image-URL
 * and alt-text inputs, the OK button's disabled flag, whether the popup is
 * shown and whether the URL input has the focus. `emit` goes to the shared
 * event manager's log.
 *
 * As for the link popup, functions on a snapshot (`ImagePopup`) give the
 * behaviour and each method is proved to follow them.
 */
module AddImagePopup {
  import opened Text
  import opened Events

  /** A snapshot of the popup's fields. */
  datatype ImagePopup = ImagePopup(imageUrl: string, altText: string, okDisabled: bool, visible: bool, urlFocused: bool)

  /** A step's new state and the events it emitted, in order. */
  datatype Step = Step(popup: ImagePopup, emitted: seq<Event>)

  const AddImageCommand: string := "AddImage"

  /** The alt text used when the description input is left empty. */
  const DefaultAltText: string := "image"

  /** The popup as constructed: nothing typed, hidden. */
  const Initial: ImagePopup := ImagePopup("", "", false, false, false)

  /** `altText || 'image'`: an empty alt text becomes the default. */
  function AltOrDefault(altText: string): (r: string)
    ensures altText == "" ==> r == DefaultAltText
    ensures altText != "" ==> r == altText
  {
    if altText != "" then altText else DefaultAltText
  }

  /** `disableBtnOnEmptyValue`: OK is disabled exactly when the URL is blank. */
  function Validated(p: ImagePopup): (r: ImagePopup)
    ensures r.okDisabled <==> AllWhitespace(p.imageUrl)
    ensures r.(okDisabled := p.okDisabled) == p
  {
    p.(okDisabled := |Trim(p.imageUrl)| == 0)
  }

  /** `hide()`: the popup is hidden and its 'hidden' handler empties every input. */
  function Hidden(p: ImagePopup): (r: ImagePopup)
    ensures !r.visible && r.imageUrl == "" && r.altText == ""
    ensures r.okDisabled == p.okDisabled && r.urlFocused == p.urlFocused
  {
    p.(visible := false, imageUrl := "", altText := "")
  }

  /**
   * `show()`: the popup is shown, the URL input has the focus and OK is
   * disabled, whatever the inputs hold; nothing else changes.
   */
  function Shown(p: ImagePopup): (r: ImagePopup)
    ensures r.visible && r.urlFocused && r.okDisabled
    ensures r.imageUrl == p.imageUrl && r.altText == p.altText
  {
    p.(visible := true, urlFocused := true, okDisabled := true)
  }

  /**
   * `_applyImage(imageUrl, altText)`: emits one AddImage command whose URL is
   * passed on as given and whose alt text falls back to 'image', then hides.
   */
  function AfterApplyImage(p: ImagePopup, imageUrl: string, altText: string): (r: Step)
    ensures r.emitted == [Command(AddImageCommand, ImagePayload(imageUrl, AltOrDefault(altText)))]
    ensures r.popup == Hidden(p)
  {
    Step(Hidden(p), [Command(AddImageCommand, ImagePayload(imageUrl, AltOrDefault(altText)))])
  }

  /**
   * The OK button's handler: it reads both inputs, applies them and hides the
   * popup once more. Exactly one command goes out, carrying what the inputs
   * held, and the popup ends hidden with empty inputs.
   */
  function AfterOk(p: ImagePopup): (r: Step)
    ensures r.emitted == [Command(AddImageCommand, ImagePayload(p.imageUrl, AltOrDefault(p.altText)))]
    ensures !r.popup.visible && r.popup.imageUrl == "" && r.popup.altText == ""
    ensures r.popup == Hidden(p)
  {
    var applied := AfterApplyImage(p, p.imageUrl, p.altText);
    Step(Hidden(applied.popup), applied.emitted)
  }

  /**
   * The 'openPopupAddImage' listener: it emits 'closeAllPopup', which this
   * popup answers by hiding itself, and then shows the popup, which ends
   * visible with empty inputs, the focus on the URL input and OK disabled.
   */
  function AfterOpen(p: ImagePopup): (r: Step)
    ensures r.emitted == [CloseAllPopup]
    ensures r.popup == ImagePopup("", "", true, true, true)
  {
    Step(Shown(Hidden(p)), [CloseAllPopup])
  }

  /** Hiding a hidden popup changes nothing. */
  lemma HiddenIdempotent(p: ImagePopup)
    ensures Hidden(Hidden(p)) == Hidden(p)
  {
  }

  class PopupAddImage {
    var imageUrlInput: string
    var altTextInput: string
    var okDisabled: bool
    var visible: bool
    var urlFocused: bool
    const eventManager: EventManager

    /** The snapshot of the fields. */
    ghost function Current(): ImagePopup
      reads this
    {
      ImagePopup(imageUrlInput, altTextInput, okDisabled, visible, urlFocused)
    }

    constructor (em: EventManager)
      ensures eventManager == em && Current() == Initial
    {
      eventManager := em;
      imageUrlInput, altTextInput := "", "";
      okDisabled, visible, urlFocused := false, false, false;
    }

    /** The handler of 'keyup' on the URL input. */
    method DisableBtnOnEmptyValue()
      modifies this
      ensures Current() == Validated(old(Current()))
    {
      ghost var p := Current();
      var inputURL := Trim(imageUrlInput);
      if |inputURL| == 0 {
        okDisabled := true;
      } else {
        okDisabled := false;
      }
      assert Current() == p.(okDisabled := |inputURL| == 0);
    }

    /** `_resetInputs`, the 'hidden' handler: empties every input. */
    method ResetInputs()
      modifies this
      ensures Current() == old(Current()).(imageUrl := "", altText := "")
    {
      imageUrlInput := "";
      altTextInput := "";
    }

    /** The 'shown' handler. */
    method OnShown()
      modifies this
      ensures Current() == old(Current()).(urlFocused := true, okDisabled := true)
    {
      urlFocused := true;
      okDisabled := true;
    }

    /** `show()`: makes the popup visible and runs the 'shown' handler. */
    method Show()
      modifies this
      ensures Current() == Shown(old(Current()))
    {
      visible := true;
      OnShown();
    }

    /**
     * `hide()`: hides the popup and runs the 'hidden' handler. It is also the
     * Cancel button's handler and the 'focus' and 'closeAllPopup' listener.
     */
    method Hide()
      modifies this
      ensures Current() == Hidden(old(Current()))
    {
      visible := false;
      ResetInputs();
    }

    /** `_applyImage(imageUrl, altText)`. */
    method ApplyImage(imageUrl: string, altText: string)
      modifies this, eventManager
      ensures Current() == AfterApplyImage(old(Current()), imageUrl, altText).popup
      ensures eventManager.log == old(eventManager.log) + AfterApplyImage(old(Current()), imageUrl, altText).emitted
    {
      eventManager.Emit(Command(AddImageCommand, ImagePayload(imageUrl, if altText != "" then altText else DefaultAltText)));
      Hide();
    }

    /** The OK button's handler. */
    method ClickOk()
      modifies this, eventManager
      ensures Current() == AfterOk(old(Current())).popup
      ensures eventManager.log == old(eventManager.log) + AfterOk(old(Current())).emitted
    {
      var imageUrl := imageUrlInput;
      var altText := altTextInput;
      ApplyImage(imageUrl, altText);
      Hide();
    }

    /** The 'openPopupAddImage' listener. */
    method OpenPopupAddImage()
      modifies this, eventManager
      ensures Current() == AfterOpen(old(Current())).popup
      ensures eventManager.log == old(eventManager.log) + AfterOpen(old(Current())).emitted
    {
      eventManager.Emit(CloseAllPopup);
      Hide();
      Show();
    }
  }
}
