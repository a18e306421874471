/**
 * The page as the userscript sees and changes it
 * (nextcloud-copy-dl-qr-code.js, lines 17-163): the inserted button wrapper,
 * the QR overlay, the clipboard, the copy button's label and the QR library.
 */
module Page {
  import opened Wrappers
  import opened Links
  import opened Injection

  /** Text of the copy button at rest (line 134) and after a click (line 138). */
  const IdleLabel: string := "\U{2B07}\U{FE0F} COPY-DL"
  const CopiedLabel: string := "\U{2705} COPIED!"

  /** Where a click inside the overlay lands (the event's `target`). */
  datatype OverlayTarget = Backdrop | Panel | CloseButton | QrImage | Caption

  class Document {
    /** Elements with id `nextcloud-direct-dl-wrapper` in the document. */
    var wrappers: nat
    /** The download link the inserted buttons were created with. */
    var wrapperLink: string
    /** Elements with id `nextcloud-qr-modal` in the document. */
    var overlays: nat
    /** What the host clipboard holds. */
    var clipboard: string
    /** `textContent` of the copy button ("" while no button exists). */
    var copyLabel: string
    /** Label-restoring timers scheduled and not yet fired. */
    var pendingResets: nat
    /** Whether `window.QRious` is defined. */
    var libLoaded: bool
    /** QRious `<script>` elements the userscript appended to the head. */
    var libScripts: nat

    /**
     * The page invariant: at most one wrapper, one overlay and one injected
     * library script; the buttons, the overlay and the label only exist once
     * the wrapper does; the label reads COPIED only while a reset is pending.
     */
    ghost predicate Valid()
      reads this
    {
      && wrappers <= 1
      && overlays <= 1
      && libScripts <= 1
      && (libScripts == 1 ==> libLoaded)
      && (wrappers == 0 ==>
            wrapperLink == "" && copyLabel == "" && pendingResets == 0 && overlays == 0)
      && (wrappers == 1 ==>
            EndsWith(wrapperLink, DownloadSuffix)
            && (copyLabel == IdleLabel || copyLabel == CopiedLabel)
            && (copyLabel == CopiedLabel ==> pendingResets > 0))
    }

    /** A page before the script ran; the host may already define QRious. */
    constructor (initialClipboard: string, qrLibPresent: bool)
      ensures Valid()
      ensures wrappers == 0 && overlays == 0 && libScripts == 0
      ensures clipboard == initialClipboard && libLoaded == qrLibPresent
    {
      wrappers, wrapperLink, overlays := 0, "", 0;
      clipboard, copyLabel, pendingResets := initialClipboard, "", 0;
      libLoaded, libScripts := qrLibPresent, 0;
    }

    /**
     * `tryInject(node)`: inserts the wrapper, carrying the derived link, when
     * the node is an element holding a copy-link control, no wrapper exists
     * yet and the control's `href` passes the guard; otherwise nothing changes.
     */
    method TryInject(node: AddedNode)
      requires Valid()
      modifies this
      ensures Valid()
      ensures old(wrappers) == 0 && Candidate(node).Some? ==>
                wrappers == 1 && wrapperLink == Candidate(node).value && copyLabel == IdleLabel
      ensures !(old(wrappers) == 0 && Candidate(node).Some?) ==>
                wrappers == old(wrappers) && wrapperLink == old(wrapperLink) && copyLabel == old(copyLabel)
      ensures overlays == old(overlays) && clipboard == old(clipboard) && pendingResets == old(pendingResets)
      ensures libLoaded == old(libLoaded) && libScripts == old(libScripts)
    {
      if !node.Element? {
        return;
      }
      var copyLinkButton := node.copyControl;
      if copyLinkButton.None? || wrappers > 0 {
        return;
      }
      var rawLink := copyLinkButton.value.href;
      if rawLink.None? || rawLink.value == "" || !(HttpPrefix <= rawLink.value) {
        return;
      }
      var downloadLink := DownloadLink(rawLink.value);
      wrappers := wrappers + 1;
      wrapperLink := downloadLink;
      copyLabel := IdleLabel;
    }

    /**
     * The state a run over the added nodes `nodes` leaves, from a page whose
     * wrapper count, link and label were `w0`, `link0` and `label0`.
     */
    ghost predicate InjectedFrom(w0: nat, link0: string, label0: string, nodes: seq<AddedNode>)
      reads this
    {
      if w0 == 0 && FirstCandidate(nodes).Some? then
        wrappers == 1 && wrapperLink == FirstCandidate(nodes).value && copyLabel == IdleLabel
      else
        wrappers == w0 && wrapperLink == link0 && copyLabel == label0
    }

    /** The inner loop of the callback: the added nodes of one mutation record, in order. */
    method InjectAll(addedNodes: seq<AddedNode>)
      requires Valid()
      modifies this
      ensures Valid()
      ensures InjectedFrom(old(wrappers), old(wrapperLink), old(copyLabel), addedNodes)
      ensures overlays == old(overlays) && clipboard == old(clipboard) && pendingResets == old(pendingResets)
      ensures libLoaded == old(libLoaded) && libScripts == old(libScripts)
    {
      for j := 0 to |addedNodes|
        invariant Valid()
        invariant InjectedFrom(old(wrappers), old(wrapperLink), old(copyLabel), addedNodes[..j])
        invariant overlays == old(overlays) && clipboard == old(clipboard) && pendingResets == old(pendingResets)
        invariant libLoaded == old(libLoaded) && libScripts == old(libScripts)
      {
        FirstCandidateAppend(addedNodes[..j], [addedNodes[j]]);
        assert addedNodes[..j + 1] == addedNodes[..j] + [addedNodes[j]];
        assert FirstCandidate([addedNodes[j]]) == Candidate(addedNodes[j]);
        TryInject(addedNodes[j]);
      }
      assert addedNodes[..|addedNodes|] == addedNodes;
    }

    /**
     * The MutationObserver callback: every added node of every mutation
     * record, in order, goes through `tryInject`. A page without a wrapper
     * gets the link of the first node that passes the guards; a page with one
     * keeps it, link included.
     */
    method OnMutations(mutations: seq<seq<AddedNode>>)
      requires Valid()
      modifies this
      ensures Valid()
      ensures InjectedFrom(old(wrappers), old(wrapperLink), old(copyLabel), Flatten(mutations))
      ensures overlays == old(overlays) && clipboard == old(clipboard) && pendingResets == old(pendingResets)
      ensures libLoaded == old(libLoaded) && libScripts == old(libScripts)
    {
      for i := 0 to |mutations|
        invariant Valid()
        invariant InjectedFrom(old(wrappers), old(wrapperLink), old(copyLabel), Flatten(mutations[..i]))
        invariant overlays == old(overlays) && clipboard == old(clipboard) && pendingResets == old(pendingResets)
        invariant libLoaded == old(libLoaded) && libScripts == old(libScripts)
      {
        FirstCandidateAppend(Flatten(mutations[..i]), mutations[i]);
        FlattenAppend(mutations[..i], mutations[i]);
        assert mutations[..i + 1] == mutations[..i] + [mutations[i]];
        InjectAll(mutations[i]);
      }
      assert mutations[..|mutations|] == mutations;
    }

    /**
     * The copy button's click: the clipboard receives the download link, the
     * label turns to COPIED and a reset timer is scheduled.
     */
    method CopyClick()
      requires Valid() && wrappers == 1
      modifies this
      ensures Valid()
      ensures clipboard == wrapperLink && copyLabel == CopiedLabel
      ensures pendingResets == old(pendingResets) + 1
      ensures wrappers == old(wrappers) && wrapperLink == old(wrapperLink) && overlays == old(overlays)
      ensures libLoaded == old(libLoaded) && libScripts == old(libScripts)
    {
      clipboard := wrapperLink;
      copyLabel := CopiedLabel;
      pendingResets := pendingResets + 1;
    }

    /** One scheduled timer fires: the label reads COPY-DL again. */
    method ResetTimerFires()
      requires Valid() && pendingResets > 0
      modifies this
      ensures Valid()
      ensures copyLabel == IdleLabel && pendingResets == old(pendingResets) - 1
      ensures wrappers == old(wrappers) && wrapperLink == old(wrapperLink) && overlays == old(overlays)
      ensures clipboard == old(clipboard) && libLoaded == old(libLoaded) && libScripts == old(libScripts)
    {
      copyLabel := IdleLabel;
      pendingResets := pendingResets - 1;
    }

    /**
     * `injectQrLib`: when QRious is defined nothing is loaded; otherwise one
     * script is appended, and its load (taken as immediate) defines QRious.
     * The callback runs afterwards, in the caller.
     */
    method InjectQrLib()
      requires Valid()
      modifies this
      ensures Valid()
      ensures libLoaded
      ensures libScripts == if old(libLoaded) then old(libScripts) else old(libScripts) + 1
      ensures wrappers == old(wrappers) && wrapperLink == old(wrapperLink) && overlays == old(overlays)
      ensures clipboard == old(clipboard) && copyLabel == old(copyLabel) && pendingResets == old(pendingResets)
    {
      if libLoaded {
        return;
      }
      libScripts := libScripts + 1;
      libLoaded := true;
    }

    /** `createQrModal`: appends an overlay unless one is already open. */
    method CreateQrModal()
      requires Valid() && wrappers == 1 && libLoaded
      modifies this
      ensures Valid()
      ensures overlays == 1
      ensures wrappers == old(wrappers) && wrapperLink == old(wrapperLink) && clipboard == old(clipboard)
      ensures copyLabel == old(copyLabel) && pendingResets == old(pendingResets)
      ensures libLoaded == old(libLoaded) && libScripts == old(libScripts)
    {
      if overlays > 0 {
        return;
      }
      overlays := overlays + 1;
    }

    /** The QR button's click: load the library if needed, then open the overlay. */
    method QrClick()
      requires Valid() && wrappers == 1
      modifies this
      ensures Valid()
      ensures overlays == 1 && libLoaded
      ensures libScripts == if old(libLoaded) then old(libScripts) else old(libScripts) + 1
      ensures wrappers == old(wrappers) && wrapperLink == old(wrapperLink) && clipboard == old(clipboard)
      ensures copyLabel == old(copyLabel) && pendingResets == old(pendingResets)
    {
      InjectQrLib();
      CreateQrModal();
    }

    /** The close button's handler: `overlay.remove()`. */
    method CloseClick()
      requires Valid() && overlays == 1
      modifies this
      ensures Valid()
      ensures overlays == 0
      ensures wrappers == old(wrappers) && wrapperLink == old(wrapperLink) && clipboard == old(clipboard)
      ensures copyLabel == old(copyLabel) && pendingResets == old(pendingResets)
      ensures libLoaded == old(libLoaded) && libScripts == old(libScripts)
    {
      overlays := overlays - 1;
    }

    /** The overlay's own click listener: it removes the overlay only when the target is the overlay. */
    method OverlayListener(target: OverlayTarget)
      requires Valid()
      modifies this
      ensures Valid()
      ensures overlays == if target == Backdrop then 0 else old(overlays)
      ensures wrappers == old(wrappers) && wrapperLink == old(wrapperLink) && clipboard == old(clipboard)
      ensures copyLabel == old(copyLabel) && pendingResets == old(pendingResets)
      ensures libLoaded == old(libLoaded) && libScripts == old(libScripts)
    {
      if target == Backdrop && overlays > 0 {
        overlays := overlays - 1;
      }
    }

    /**
     * A click inside an open overlay: the close button's own handler runs
     * first, then the event bubbles to the overlay's listener. Only the close
     * button and the bare backdrop dismiss the overlay.
     */
    method ClickInOverlay(target: OverlayTarget)
      requires Valid() && overlays == 1
      modifies this
      ensures Valid()
      ensures overlays == 0 <==> target == CloseButton || target == Backdrop
      ensures wrappers == old(wrappers) && wrapperLink == old(wrapperLink) && clipboard == old(clipboard)
      ensures copyLabel == old(copyLabel) && pendingResets == old(pendingResets)
      ensures libLoaded == old(libLoaded) && libScripts == old(libScripts)
    {
      if target == CloseButton {
        CloseClick();
      }
      OverlayListener(target);
    }
  }
}
