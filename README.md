# Nextcloud copy-DL / QR-code userscript, modelled in Dafny

The userscript watches a Nextcloud file-details page for the "copy share link"
anchor (`a.sharing-entry__copy`). From the anchor's `href` it derives a
direct-download link: one trailing `/` is dropped and `/download` is appended.
It then inserts a wrapper holding two buttons, once per page. The copy button
writes the link to the clipboard and shows `✅ COPIED!` until a timer restores
`⬇️ COPY-DL`. The QR button loads the QRious library if it is not yet defined (the load
taken as immediate) and opens a single dismissible overlay.

This project models that decision core:

- `Links` (`links.dfy`): the `href` guard and the link derivation, as pure functions with lemmas.
- `Injection` (`injection.dfy`): what `tryInject` reads from an added node, and which link a run of the observer inserts, stated on values.
- `Page` (`page.dfy`): the document as a class `Document` whose methods are the script's handlers.
  - `TryInject`, the observer callback (`OnMutations` with its inner loop `InjectAll`), the copy click and its timer, `injectQrLib`, `createQrModal`, and the two dismissal handlers.
  - `Valid()` is the page invariant: at most one wrapper, one overlay and one injected library script (the library load taken as immediate). The label reads COPIED only while a reset timer is pending.
- `Scenarios` (`scenarios.dfy`): client runs for concrete share links, proved from the contracts of `Page` and the lemmas of `Links` and `Injection`.

The wrapper and the overlay are modelled as the number of elements carrying
their ids (`wrappers`, `overlays`), not as flags. The source appends one element
each time its guard passes, so "at most one" is a real invariant, and it is proved.

## Model

| member | source | states |
|---|---|---|
| Links.HrefAccepted | nextcloud-copy-dl-qr-code.js:111 | the guard `!rawLink \|\| !rawLink.startsWith('http')`: an accepted href is present and at least as long as the prefix `http` it must start with (case-sensitive); `HrefAcceptedIsPrefixTest` gives the exact condition |
| Links.StripTrailingSlash | nextcloud-copy-dl-qr-code.js:113 | the result is a prefix of the input, at most one character shorter, and shorter exactly when the input ends in `/` |
| Links.DownloadLink | nextcloud-copy-dl-qr-code.js:113 | the link ends with `/download`; what precedes the suffix is a prefix of the raw link missing at most its last character, and it is missing one exactly when the raw link ends in `/` |
| Links.DownloadLinkCharacterization | nextcloud-copy-dl-qr-code.js:113 | for every raw link and base `p`: the link equals `p + "/download"` iff `p + "/"` is the raw link, or `p` is the raw link and does not end in `/` |
| Links.DownloadLinkOfSlashed | nextcloud-copy-dl-qr-code.js:113 | exactly one slash is removed: `raw + "/"` gives `raw + "/download"` for every `raw`, so `x//` gives `x//download` |
| Links.DownloadLinkOfUnslashed | nextcloud-copy-dl-qr-code.js:113 | a raw link not ending in `/` is kept whole before the suffix |
| Links.DownloadLinkCollision | nextcloud-copy-dl-qr-code.js:113 | two raw links share a download link iff they are equal, or one is the other (not ending in `/`) plus one `/` |
| Links.HrefAcceptedIsPrefixTest | nextcloud-copy-dl-qr-code.js:110-111 | the guard accepts exactly the present hrefs whose first four characters are `http`; the emptiness test adds nothing |
| Links.DownloadLinkExamples | nextcloud-copy-dl-qr-code.js:113 | `https://host/s/abc/` and `https://host/s/abc` both give `https://host/s/abc/download`, and `x//` gives `x//download` |
| Links.HrefAcceptedExamples | nextcloud-copy-dl-qr-code.js:110-111 | `httpx:` passes the guard; `ftp://`, `""` and a missing href do not |
| Injection.Candidate | nextcloud-copy-dl-qr-code.js:104-113 | a node yields a link iff it is an element, its query finds a copy control, and that control's href passes the guard; the link is the derived download link of that href |
| Injection.Flatten | nextcloud-copy-dl-qr-code.js:155-156 | the added nodes of the mutation records, concatenated in delivery order: every node of every record appears in it; `FlattenAppend` gives the order |
| Injection.FirstCandidate | nextcloud-copy-dl-qr-code.js:154-160 | no link results iff no added node passes the node guards; any link results ends with `/download` |
| Injection.FirstCandidateIsFirst | nextcloud-copy-dl-qr-code.js:154-160 | the link chosen is that of the first node, in delivery order, that passes the guards |
| Injection.FlattenAppend | nextcloud-copy-dl-qr-code.js:155-156 | the nodes of the mutation records plus one more record are the earlier nodes followed by that record's nodes |
| Injection.FirstCandidateAppend | nextcloud-copy-dl-qr-code.js:154-160 | processing `a` then `b` inserts what `a` would, and only if `a` inserts nothing, what `b` would |
| Injection.FirstCandidateRedelivery | nextcloud-copy-dl-qr-code.js:108 | delivering nodes that were already processed again never changes which link is inserted |
| Page.Document.constructor | nextcloud-copy-dl-qr-code.js:14-18 | before the script runs there is no wrapper, no overlay and no injected script; the clipboard and QRious presence are the host's |
| Page.Document.TryInject | nextcloud-copy-dl-qr-code.js:104-152 | with no wrapper yet and a node that passes every guard, exactly one wrapper is inserted, carrying the derived link and the idle label; otherwise nothing changes; the overlay, clipboard, timers and library never change |
| Page.Document.InjectAll | nextcloud-copy-dl-qr-code.js:156-158 | after one record's added nodes: a page without a wrapper gets the link of the first accepted node, or stays unchanged; a page with a wrapper keeps it and its link |
| Page.Document.OnMutations | nextcloud-copy-dl-qr-code.js:154-160 | the same over any sequence of mutation records, with the page invariant kept (at most one wrapper); once inserted, the wrapper's link never changes |
| Page.Document.CopyClick | nextcloud-copy-dl-qr-code.js:136-140 | the clipboard holds exactly the wrapper's download link and the label reads `✅ COPIED!`; one more reset is pending; wrapper, overlay and library are unchanged |
| Page.Document.ResetTimerFires | nextcloud-copy-dl-qr-code.js:139 | the label reads `⬇️ COPY-DL` again and one fewer reset is pending; nothing else changes |
| Page.Document.InjectQrLib | nextcloud-copy-dl-qr-code.js:20-27 | afterwards QRious is loaded; a script is appended only when it was not loaded before, so, the load taken as immediate, the script is injected at most once per page |
| Page.Document.CreateQrModal | nextcloud-copy-dl-qr-code.js:29-30 | afterwards exactly one overlay exists; when one was already open nothing changes |
| Page.Document.QrClick | nextcloud-copy-dl-qr-code.js:145-147 | the library is loaded, at most once, and then exactly one overlay is shown, however many times the button is clicked |
| Page.Document.CloseClick | nextcloud-copy-dl-qr-code.js:78 | the close button removes the overlay and changes nothing else |
| Page.Document.OverlayListener | nextcloud-copy-dl-qr-code.js:99-101 | the overlay's listener removes it only when the event target is the overlay itself |
| Page.Document.ClickInOverlay | nextcloud-copy-dl-qr-code.js:78-101 | a click inside an open overlay dismisses it iff it lands on the close button or the bare backdrop; the inner panel, image and caption keep it open |
| Scenarios.CopyScenario | nextcloud-copy-dl-qr-code.js:110-140 | for `https://host/s/abc/` delivered after unrelated nodes, the wrapper carries `https://host/s/abc/download`; a copy puts it on the clipboard with the COPIED label, and the timer restores `⬇️ COPY-DL` |
| Scenarios.InjectTwiceScenario | nextcloud-copy-dl-qr-code.js:108 | injecting twice, then for another control, leaves one wrapper with the first link |
| Scenarios.GuardScenario | nextcloud-copy-dl-qr-code.js:110-111 | missing, empty and `ftp://` hrefs insert nothing; `httpx:odd` inserts the wrapper |
| Scenarios.OverlayScenario | nextcloud-copy-dl-qr-code.js:20-30 | two QR clicks give one overlay and one library script; a panel click keeps the overlay; the backdrop and the close button each dismiss it |

## Left out

- The QR image: QRious and `toDataURL` (lines 80-82) are a third-party library. The overlay is modelled only as present or absent.
- The QRious `<script>` load (lines 23-26) is network I/O. It is taken to succeed at once: `InjectQrLib` sets `libLoaded` and the callback runs next.
  - Not captured: a failed load never calling back, and two clicks before the load both appending a script.
- `GM_setClipboard` and the 1000 ms `setTimeout` (lines 137-139) are host capabilities. The clipboard is a field. The timer is an explicit event, `ResetTimerFires`, with a count of pending resets.
- `MutationObserver` registration on `document.body` (line 162) is host plumbing. Only the callback over supplied mutation records is modelled.
  - The source's nested loop is split in two: the inner loop over one record's `addedNodes` is the method `InjectAll`.
- An added node is abstract: whether it is an `HTMLElement`, and what `querySelector('a.sharing-entry__copy')` returns for it.
  - That query searches descendants only, so a node that is itself the anchor has no control.
  - The DOM tree, CSS text, element creation and placement under `parentElement` are not modelled.
- The element ids `nextcloud-direct-dl-wrapper` and `nextcloud-qr-modal` are not modelled as strings. The two counts stand for `getElementById` finding an element with that id.
- The host page removing the wrapper or the overlay (for example when the sidebar is re-rendered) is not modelled.
  - The `Valid` invariant assumes that only the script adds or removes them.
- The userscript metadata header (lines 1-12), including the `@match` pattern, configures the host runtime and is not modelled.
- Page.Document.CreateQrModal: requires QRious to be loaded. The source's only caller guarantees this through `injectQrLib`; called without it, line 80 would throw.
