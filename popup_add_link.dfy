/**
 * The "Insert link" popup. Its DOM is reduced to plain fields: the two text
 * inputs, the "open in new tab" checkbox, the OK button's disabled flag, the
 * `wrong` marks of the inputs, whether the popup is shown and which input has
 * the focus. `emit` goes to the shared event manager's log.
 *
 * The popup's behaviour is given by functions on a snapshot of its state
 * (`LinkPopup`); each method of the class is proved to move its fields from
 * one snapshot to the next.
 */
module AddLinkPopup {
  import opened Text
  import opened Events

  /** The input that last received the focus. */
  datatype Focus = Unfocused | TextInput | UrlInput

  /** A snapshot of the popup's fields. */
  datatype LinkPopup = LinkPopup(
    text: string, url: string, newWindow: bool,
    okDisabled: bool, textWrong: bool, urlWrong: bool,
    visible: bool, focus: Focus)

  /** What `_getValue` returns. */
  datatype LinkValue = LinkValue(url: string, linkText: string, openInNewWindow: bool)

  /** A step's new state and the events it emitted, in order. */
  datatype Step = Step(popup: LinkPopup, emitted: seq<Event>)

  const AddLinkCommand: string := "AddLink"

  /** The popup as constructed: nothing typed, nothing marked, hidden. */
  const Initial: LinkPopup := LinkPopup("", "", false, false, false, false, false, Unfocused)

  /** `disableBtnOnEmptyValue`: OK is disabled exactly when the URL is blank. */
  function Validated(p: LinkPopup): (r: LinkPopup)
    ensures r.okDisabled <==> AllWhitespace(p.url)
    ensures r.(okDisabled := p.okDisabled) == p
  {
    p.(okDisabled := |Trim(p.url)| == 0)
  }

  /** `_clearValidationStyle`: removes both `wrong` marks. */
  function ValidationCleared(p: LinkPopup): (r: LinkPopup)
    ensures !r.textWrong && !r.urlWrong
    ensures r.(textWrong := p.textWrong, urlWrong := p.urlWrong) == p
  {
    p.(textWrong := false, urlWrong := false)
  }

  /** `_resetInputs`: empties both inputs, unticks the box, clears the marks. */
  function InputsReset(p: LinkPopup): (r: LinkPopup)
    ensures r.text == "" && r.url == "" && !r.newWindow && !r.textWrong && !r.urlWrong
    ensures r.okDisabled == p.okDisabled && r.visible == p.visible && r.focus == p.focus
  {
    ValidationCleared(p.(text := "", url := "", newWindow := false))
  }

  /** `hide()`: the popup is hidden and its 'hidden' handler resets the inputs. */
  function Hidden(p: LinkPopup): (r: LinkPopup)
    ensures !r.visible
    ensures r.text == "" && r.url == "" && !r.newWindow && !r.textWrong && !r.urlWrong
    ensures r.okDisabled == p.okDisabled && r.focus == p.focus
  {
    InputsReset(p.(visible := false))
  }

  /** Which input the 'shown' handler focuses. */
  function ShownFocus(trimmedSelection: string, url: string): (r: Focus)
    ensures r == UrlInput <==> trimmedSelection != "" && url == ""
    ensures r == TextInput <==> trimmedSelection == "" || url != ""
  {
    if |trimmedSelection| > 0 && |url| < 1 then UrlInput else TextInput
  }

  /**
   * The 'shown' handler with `selectedText` selected in the editor: the link
   * text becomes the trimmed selection, the URL input gets the focus exactly
   * when that text is non-empty and no URL is typed (otherwise the text input
   * does), and OK ends disabled exactly when the URL is blank.
   */
  function ShownHandler(p: LinkPopup, selectedText: string): (r: LinkPopup)
    ensures r.text == Trim(selectedText)
    ensures r.focus == UrlInput <==> !AllWhitespace(selectedText) && p.url == ""
    ensures r.focus == TextInput <==> !(!AllWhitespace(selectedText) && p.url == "")
    ensures r.okDisabled <==> AllWhitespace(p.url)
    ensures r.url == p.url && r.newWindow == p.newWindow && r.visible == p.visible
    ensures r.textWrong == p.textWrong && r.urlWrong == p.urlWrong
  {
    var selected := Trim(selectedText);
    Validated(p.(okDisabled := true, text := selected, focus := ShownFocus(selected, p.url)))
  }

  /**
   * `show()`: the popup becomes visible and its 'shown' handler runs, so the
   * popup ends visible and otherwise as `ShownHandler` says.
   */
  function Shown(p: LinkPopup, selectedText: string): (r: LinkPopup)
    ensures r.visible && r.text == Trim(selectedText)
    ensures r.focus == UrlInput <==> !AllWhitespace(selectedText) && p.url == ""
    ensures r.focus == TextInput <==> !(!AllWhitespace(selectedText) && p.url == "")
    ensures r.okDisabled <==> AllWhitespace(p.url)
    ensures r.url == p.url && r.newWindow == p.newWindow
    ensures r.textWrong == p.textWrong && r.urlWrong == p.urlWrong
  {
    ShownHandler(p.(visible := true), selectedText)
  }

  /**
   * `_addLink`: with an empty link text it marks the text input as wrong and
   * emits nothing, leaving the popup as it was; otherwise it emits one
   * AddLink command carrying the raw field values and hides the popup.
   */
  function AfterAddLink(p: LinkPopup): (r: Step)
    ensures p.text == "" ==> r.emitted == [] && r.popup == p.(textWrong := true, urlWrong := false)
    ensures p.text != "" ==>
      && r.emitted == [Command(AddLinkCommand, LinkPayload(p.text, p.url, p.newWindow))]
      && r.popup == Hidden(p)
  {
    var v := LinkValue(p.url, p.text, p.newWindow);
    var q := ValidationCleared(p);
    if |v.linkText| < 1 then
      Step(q.(textWrong := true), [])
    else
      Step(Hidden(q), [Command(AddLinkCommand, LinkPayload(v.linkText, v.url, v.openInNewWindow))])
  }

  /**
   * The 'openPopupAddLink' listener: it emits 'closeAllPopup', which this
   * popup answers by hiding itself, and then shows the popup. Whatever was
   * typed before is gone, OK is disabled and the URL input has the focus
   * exactly when the selection holds more than white space.
   */
  function AfterOpen(p: LinkPopup, selectedText: string): (r: Step)
    ensures r.emitted == [CloseAllPopup]
    ensures r.popup.visible && r.popup.text == Trim(selectedText)
    ensures r.popup.url == "" && !r.popup.newWindow && !r.popup.textWrong && !r.popup.urlWrong
    ensures r.popup.okDisabled
    ensures r.popup.focus == (if AllWhitespace(selectedText) then TextInput else UrlInput)
  {
    Step(Shown(Hidden(p), selectedText), [CloseAllPopup])
  }

  /** Hiding a hidden popup changes nothing. */
  lemma HiddenIdempotent(p: LinkPopup)
    ensures Hidden(Hidden(p)) == Hidden(p)
  {
  }

  /** Re-validating an unchanged URL gives the same OK state. */
  lemma ValidatedIdempotent(p: LinkPopup)
    ensures Validated(Validated(p)) == Validated(p)
  {
  }

  class PopupAddLink {
    var inputText: string
    var inputURL: string
    var chkNewWindow: bool
    var okDisabled: bool
    var textWrong: bool
    var urlWrong: bool
    var visible: bool
    var focus: Focus
    const eventManager: EventManager

    /** The snapshot of the fields. */
    ghost function Current(): LinkPopup
      reads this
    {
      LinkPopup(inputText, inputURL, chkNewWindow, okDisabled, textWrong, urlWrong, visible, focus)
    }

    constructor (em: EventManager)
      ensures eventManager == em && Current() == Initial
    {
      eventManager := em;
      inputText, inputURL, chkNewWindow := "", "", false;
      okDisabled, textWrong, urlWrong := false, false, false;
      visible, focus := false, Unfocused;
    }

    /** The handler of 'keyup' and 'paste' on the URL input. */
    method DisableBtnOnEmptyValue()
      modifies this
      ensures Current() == Validated(old(Current()))
    {
      ghost var p := Current();
      var url := Trim(inputURL);
      okDisabled := |url| == 0;
      assert Current() == p.(okDisabled := |url| == 0);
    }

    method ClearValidationStyle()
      modifies this
      ensures Current() == ValidationCleared(old(Current()))
    {
      urlWrong := false;
      textWrong := false;
    }

    method ResetInputs()
      modifies this
      ensures Current() == InputsReset(old(Current()))
    {
      inputText := "";
      inputURL := "";
      chkNewWindow := false;
      ClearValidationStyle();
    }

    /** The 'shown' handler. */
    method OnShown(selectedText: string)
      modifies this
      ensures Current() == ShownHandler(old(Current()), selectedText)
    {
      ghost var p := Current();
      okDisabled := true;
      var selected := Trim(selectedText);
      inputText := selected;
      var target: Focus;
      if |selected| > 0 && |inputURL| < 1 {
        target := UrlInput;
      } else {
        target := TextInput;
      }
      assert target == ShownFocus(selected, inputURL);
      focus := target;
      assert Current() == p.(okDisabled := true, text := selected, focus := ShownFocus(selected, p.url));
      DisableBtnOnEmptyValue();
    }

    /** The 'hidden' handler. */
    method OnHidden()
      modifies this
      ensures Current() == InputsReset(old(Current()))
    {
      ResetInputs();
    }

    /** `show()`: makes the popup visible and runs the 'shown' handler. */
    method Show(selectedText: string)
      modifies this
      ensures Current() == Shown(old(Current()), selectedText)
    {
      visible := true;
      OnShown(selectedText);
    }

    /**
     * `hide()`: hides the popup and runs the 'hidden' handler. It is also the
     * Cancel button's handler and the 'focus' and 'closeAllPopup' listener.
     */
    method Hide()
      modifies this
      ensures Current() == Hidden(old(Current()))
    {
      visible := false;
      OnHidden();
    }

    /** `_getValue`: reads the three inputs and changes nothing. */
    method GetValue() returns (v: LinkValue)
      ensures v.url == inputURL && v.linkText == inputText && v.openInNewWindow == chkNewWindow
    {
      v := LinkValue(inputURL, inputText, chkNewWindow);
    }

    /** `_addLink`, the OK button's handler. */
    method AddLink()
      modifies this, eventManager
      ensures Current() == AfterAddLink(old(Current())).popup
      ensures eventManager.log == old(eventManager.log) + AfterAddLink(old(Current())).emitted
    {
      var v := GetValue();
      ClearValidationStyle();
      if |v.linkText| < 1 {
        textWrong := true;
        return;
      }
      eventManager.Emit(Command(AddLinkCommand, LinkPayload(v.linkText, v.url, v.openInNewWindow)));
      Hide();
    }

    /** The 'openPopupAddLink' listener. */
    method OpenPopupAddLink(selectedText: string)
      modifies this, eventManager
      ensures Current() == AfterOpen(old(Current()), selectedText).popup
      ensures eventManager.log == old(eventManager.log) + AfterOpen(old(Current()), selectedText).emitted
    {
      eventManager.Emit(CloseAllPopup);
      Hide();
      Show(selectedText);
    }
  }
}
