/**
 * What `tryInject` reads from an added node (nextcloud-copy-dl-qr-code.js,
 * lines 104-113), and which link a run of the mutation observer inserts
 * (lines 154-160), stated on values.
 */
module Injection {
  import opened Wrappers
  import opened Links

  /** The `a.sharing-entry__copy` anchor: only its `href` attribute matters. */
  datatype CopyControl = CopyControl(href: Option<string>)

  /**
   * A node from `mutation.addedNodes`: either not an `HTMLElement` (text,
   * comment, ...), or an element together with the first descendant that
   * `querySelector('a.sharing-entry__copy')` finds, if any.
   */
  datatype AddedNode = NonElement | Element(copyControl: Option<CopyControl>)

  /**
   * The download link `tryInject` would insert for `node` on a page that has
   * no wrapper yet, or None when one of its node guards returns early.
   */
  function Candidate(node: AddedNode): (r: Option<string>)
    ensures r.Some? <==> node.Element? && node.copyControl.Some? && HrefAccepted(node.copyControl.value.href)
    ensures r.Some? ==> r.value == DownloadLink(node.copyControl.value.href.value)
  {
    match node
    case NonElement => None
    case Element(control) =>
      if control.None? then None
      else if !HrefAccepted(control.value.href) then None
      else Some(DownloadLink(control.value.href.value))
  }

  /** The added nodes of a list of mutation records, in delivery order. */
  function Flatten(batches: seq<seq<AddedNode>>): (r: seq<AddedNode>)
    ensures forall k, n :: 0 <= k < |batches| && n in batches[k] ==> n in r
  {
    if batches == [] then [] else batches[0] + Flatten(batches[1..])
  }

  /**
   * The link of the first node in `nodes` that passes every node guard: the
   * one that a page without a wrapper ends up with.
   */
  function FirstCandidate(nodes: seq<AddedNode>): (r: Option<string>)
    ensures r.None? <==> forall i :: 0 <= i < |nodes| ==> Candidate(nodes[i]).None?
    ensures r.Some? ==> EndsWith(r.value, DownloadSuffix)
  {
    if nodes == [] then None
    else if Candidate(nodes[0]).Some? then Candidate(nodes[0])
    else
      assert forall i :: 1 <= i < |nodes| ==> nodes[i] == nodes[1..][i - 1];
      FirstCandidate(nodes[1..])
  }

  /** The node FirstCandidate picks is the first one that passes the guards. */
  lemma {:induction false} FirstCandidateIsFirst(nodes: seq<AddedNode>, i: nat)
    requires i < |nodes| && Candidate(nodes[i]).Some?
    requires forall j :: 0 <= j < i ==> Candidate(nodes[j]).None?
    ensures FirstCandidate(nodes) == Candidate(nodes[i])
  {
    if i > 0 {
      assert Candidate(nodes[0]).None?;
      FirstCandidateIsFirst(nodes[1..], i - 1);
    }
  }

  lemma {:induction false} FlattenAppend(batches: seq<seq<AddedNode>>, batch: seq<AddedNode>)
    ensures Flatten(batches + [batch]) == Flatten(batches) + batch
  {
    if batches == [] {
      assert [batch][1..] == [];
    } else {
      assert (batches + [batch])[1..] == batches[1..] + [batch];
      FlattenAppend(batches[1..], batch);
    }
  }

  /** Processing `a` then `b` inserts what `a` would, or else what `b` would. */
  lemma {:induction false} FirstCandidateAppend(a: seq<AddedNode>, b: seq<AddedNode>)
    ensures FirstCandidate(a + b) == if FirstCandidate(a).Some? then FirstCandidate(a) else FirstCandidate(b)
  {
    if a == [] {
      assert a + b == b;
    } else {
      assert (a + b)[0] == a[0];
      assert (a + b)[1..] == a[1..] + b;
      FirstCandidateAppend(a[1..], b);
    }
  }

  /** Delivering the same added nodes a second time inserts nothing new. */
  lemma {:induction false} FirstCandidateRedelivery(nodes: seq<AddedNode>, more: seq<AddedNode>)
    ensures FirstCandidate(nodes + more + nodes) == FirstCandidate(nodes + more)
  {
    FirstCandidateAppend(nodes + more, nodes);
    FirstCandidateAppend(nodes, more);
  }
}
