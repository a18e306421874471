/**
 * Client runs of the page model for one share link, proved from the
 * contracts of `Page` and the lemmas of `Links` and `Injection`.
 */
module Scenarios {
  import opened Wrappers
  import opened Links
  import opened Injection
  import opened Page

  function ShareNode(href: Option<string>): AddedNode
  {
    Element(Some(CopyControl(href)))
  }

  /** A trailing '/' is dropped once; copying fills the clipboard, the timer restores the label. */
  method CopyScenario() returns (link: string, clip: string, clicked: string, restored: string)
    ensures link == "https://host/s/abc/download" && clip == link
    ensures clicked == CopiedLabel && restored == IdleLabel
  {
    var page := new Document("old clipboard", false);
    DownloadLinkOfSlashed("https://host/s/abc");
    var mutations := [[NonElement, Element(None)], [ShareNode(Some("https://host/s/abc/"))]];
    FlattenAppend([mutations[0]], mutations[1]);
    assert [mutations[0]] + [mutations[1]] == mutations;
    var nodes := Flatten(mutations);
    assert nodes == [NonElement, Element(None), ShareNode(Some("https://host/s/abc/"))];
    FirstCandidateIsFirst(nodes, 2);
    page.OnMutations(mutations);
    link := page.wrapperLink;
    page.CopyClick();
    clip, clicked := page.clipboard, page.copyLabel;
    page.ResetTimerFires();
    restored := page.copyLabel;
  }

  /** Injecting twice, or for a second control, leaves the one wrapper and its link. */
  method InjectTwiceScenario() returns (wrappers: nat, link: string)
    ensures wrappers == 1 && link == "https://host/s/abc/download"
  {
    var page := new Document("", false);
    DownloadLinkOfUnslashed("https://host/s/abc");
    page.TryInject(ShareNode(Some("https://host/s/abc")));
    page.TryInject(ShareNode(Some("https://host/s/abc")));
    page.TryInject(ShareNode(Some("https://host/s/other")));
    wrappers, link := page.wrappers, page.wrapperLink;
  }

  /** Hrefs that are missing, empty or not "http"-prefixed insert nothing; "httpx:" passes. */
  method GuardScenario() returns (before: nat, after: nat)
    ensures before == 0 && after == 1
  {
    var page := new Document("", false);
    page.OnMutations([[ShareNode(None), ShareNode(Some("")), ShareNode(Some("ftp://host/s/abc"))]]);
    before := page.wrappers;
    page.TryInject(ShareNode(Some("httpx:odd")));
    after := page.wrappers;
  }

  /**
   * Two QR clicks open one overlay and load the library once; a click on the
   * panel keeps it, the backdrop and the close button dismiss it.
   */
  method OverlayScenario() returns (afterTwoClicks: nat, afterPanel: nat, afterBackdrop: nat, afterClose: nat, scripts: nat)
    ensures afterTwoClicks == 1 && afterPanel == 1 && afterBackdrop == 0 && afterClose == 0
    ensures scripts == 1
  {
    var page := new Document("", false);
    page.TryInject(ShareNode(Some("https://host/s/abc")));
    page.QrClick();
    page.QrClick();
    afterTwoClicks := page.overlays;
    page.ClickInOverlay(Panel);
    afterPanel := page.overlays;
    page.ClickInOverlay(Backdrop);
    afterBackdrop := page.overlays;
    page.QrClick();
    page.ClickInOverlay(CloseButton);
    afterClose, scripts := page.overlays, page.libScripts;
  }
}
