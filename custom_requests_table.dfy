/** The admin table of custom presentation requests
    (components/admin/custom-requests-table.tsx): a case-insensitive search
    over e-mail, topic and name, the status badge, the count label, the
    empty row, and the detail panel opened by `View`. */
module CustomRequestsTable {
  import opened Text
  import Seqs

  datatype CustomRequest = CustomRequest(
    id: string,
    name: Option<string>,
    email: string,
    topic: string,
    details: Option<string>,
    language: string,
    agreedToTerms: bool,
    status: string,
    adminNotes: Option<string>,
    createdAt: string)

  /** JavaScript truthiness of a nullable string. */
  predicate Present(s: Option<string>)
  {
    s.Some? && s.value != ""
  }

  /** A request is shown iff the lower-cased search term occurs in its
      lower-cased e-mail, topic, or (non-empty) name. */
  predicate Matches(searchTerm: string, request: CustomRequest)
  {
    var term := Lower(searchTerm);
    Contains(Lower(request.email), term)
    || Contains(Lower(request.topic), term)
    || (Present(request.name) && Contains(Lower(request.name.value), term))
  }

  /** `filteredRequests`. */
  function Filtered(searchTerm: string, requests: seq<CustomRequest>): seq<CustomRequest>
  {
    Seqs.Filter((request: CustomRequest) => Matches(searchTerm, request), requests)
  }

  /** The filter keeps exactly the matching requests, each as often as in
      the input, in their order. */
  lemma FilteredRequests(searchTerm: string, requests: seq<CustomRequest>, request: CustomRequest)
    ensures request in Filtered(searchTerm, requests) <==> request in requests && Matches(searchTerm, request)
    ensures Seqs.IsSubsequence(Filtered(searchTerm, requests), requests)
    ensures multiset(Filtered(searchTerm, requests))[request] == if Matches(searchTerm, request) then multiset(requests)[request] else 0
  {
    Seqs.FilterMembership((r: CustomRequest) => Matches(searchTerm, r), requests, request);
    Seqs.FilterIsSubsequence((r: CustomRequest) => Matches(searchTerm, r), requests);
    Seqs.FilterCount((r: CustomRequest) => Matches(searchTerm, r), requests, request);
  }

  /** An empty search shows every request. */
  lemma EmptySearchKeepsAll(requests: seq<CustomRequest>)
    ensures Filtered("", requests) == requests
  {
    forall i | 0 <= i < |requests| ensures Matches("", requests[i]) {
      ContainsEmpty(Lower(requests[i].email));
    }
    Seqs.FilterAll((r: CustomRequest) => Matches("", r), requests);
  }

  /** A match on the name alone needs a non-empty name. */
  lemma NameMatchNeedsName(searchTerm: string, request: CustomRequest)
    requires Matches(searchTerm, request)
    requires !Contains(Lower(request.email), Lower(searchTerm)) && !Contains(Lower(request.topic), Lower(searchTerm))
    ensures request.name.Some? && request.name.value != ""
  {
  }

  // ----------------------------------------------------------------- badge

  datatype Variant = DefaultVariant | Secondary | Destructive | Outline

  /** `getStatusBadge`: the variant of each known status, `default` for any
      other. */
  function StatusVariant(status: string): (r: Variant)
    ensures status == "pending" <==> r == Secondary
    ensures status == "rejected" <==> r == Destructive
    ensures status == "completed" <==> r == Outline
    ensures status in {"reviewing", "accepted"} ==> r == DefaultVariant
  {
    if status == "pending" then Secondary
    else if status == "reviewing" then DefaultVariant
    else if status == "accepted" then DefaultVariant
    else if status == "rejected" then Destructive
    else if status == "completed" then Outline
    else DefaultVariant
  }

  /** Only `pending`, `rejected` and `completed` get a variant other than
      `default`. */
  lemma UnknownStatusIsDefault(status: string)
    requires status !in {"pending", "rejected", "completed"}
    ensures StatusVariant(status) == DefaultVariant
  {
  }

  // ----------------------------------------------------------------- texts

  /** The count beside the search box: `n request`, with an `s` unless `n`
      is 1. */
  function CountLabel(n: nat): (r: string)
    ensures r == NatToString(n) + (if n == 1 then " request" else " requests")
  {
    NatToString(n) + " request" + (if n != 1 then "s" else "")
  }

  /** The label's noun is singular exactly for one request. */
  lemma CountLabelNoun(n: nat)
    ensures var r := CountLabel(n); (r[|r| - 1] == 's') <==> n != 1
  {
    var r := CountLabel(n);
    if n == 1 {
      assert r[|r| - 1] == "request"[6];
    }
  }

  /** The table body: one row saying nothing was found, or one row per shown
      request. */
  datatype TableBody = EmptyRow(text: string) | RequestRows(rows: seq<CustomRequest>)

  function Body(searchTerm: string, requests: seq<CustomRequest>): (r: TableBody)
    ensures r.EmptyRow? <==> Filtered(searchTerm, requests) == []
    ensures r.EmptyRow? ==> r.text == "No custom requests found"
    ensures r.RequestRows? ==> r.rows == Filtered(searchTerm, requests)
  {
    var shown := Filtered(searchTerm, requests);
    if |shown| == 0 then EmptyRow("No custom requests found") else RequestRows(shown)
  }

  /** A request's name as shown: the name, or a dash when it is missing or
      empty. */
  function DisplayName(request: CustomRequest): (r: string)
    ensures Present(request.name) ==> r == request.name.value
    ensures !Present(request.name) ==> r == "—"
  {
    if Present(request.name) then request.name.value else "—"
  }

  // ------------------------------------------------------------- selection

  /** The request whose details are open. */
  class Selection {
    var selected: Option<CustomRequest>

    constructor ()
      ensures selected.None?
    {
      selected := None;
    }

    /** The detail panel shows iff a request is selected. */
    predicate PanelOpen()
      reads this
    {
      selected.Some?
    }

    /** `View` on a row: that request's details open. */
    method View(request: CustomRequest)
      modifies this
      ensures selected == Some(request)
    {
      selected := Some(request);
    }

    /** A click on the backdrop, or on the close button, closes the panel. */
    method Close()
      modifies this
      ensures selected.None? && !PanelOpen()
    {
      selected := None;
    }

    /** A click inside the panel stops there: nothing changes. */
    method PanelClick()
      ensures selected == old(selected)
    {
    }

    /** The panel's Details section shows only for non-empty details. */
    function ShownDetails(): (r: Option<string>)
      reads this
      requires PanelOpen()
      ensures r.Some? <==> Present(selected.value.details)
      ensures r.Some? ==> r == selected.value.details
    {
      if Present(selected.value.details) then selected.value.details else None
    }
  }
}
