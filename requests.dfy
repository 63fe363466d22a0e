/** Blood requests: `sendBloodRequest` (script.js:382-401) appends a pending request,
    `respondToRequest` (script.js:403-425) overwrites the status of the first request
    with the given id, whatever that status was, and `loadBloodRequests`
    (script.js:238-241) lists the requests addressed to a donor's display name. */
module Requests {
  import opened JsArray
  import opened Records

  const Pending := "pending"

  /** The message a request carries when the prompt was cancelled or left empty. */
  const DefaultMessage := "Urgent blood donation needed"

  /** The request `sendBloodRequest` builds; `id` is `Date.now().toString()`, `date` the
      ISO time and `answer` what `prompt` returned (None when it was cancelled). */
  function NewRequest(id: string, donorName: string, recipientName: string, bloodType: string,
                      location: string, answer: Option<string>, date: string): (r: Request)
    ensures r.id == id && r.to == donorName && r.from == recipientName && r.date == date
    ensures r.bloodType == bloodType && r.location == location
    ensures r.status == Pending && r.respondedAt.None?
    ensures r.message != ""
    ensures answer.Some? && answer.value != "" ==> r.message == answer.value
    ensures r.message == DefaultMessage <==> answer.None? || answer.value == "" || answer.value == DefaultMessage
  {
    var message := if answer.Some? && answer.value != "" then answer.value else DefaultMessage;
    Request(id, donorName, recipientName, bloodType, location, message, date, Pending, None)
  }

  /** The two assignments `respondToRequest` makes to the request it found. */
  function Answer(r: Request, response: string, at: string): (a: Request)
    ensures a.status == response && a.respondedAt == Some(at)
    ensures a.(status := r.status, respondedAt := r.respondedAt) == r
  {
    r.(status := response, respondedAt := Some(at))
  }

  /** `respondToRequest` as a reference definition: the first request with `requestId`
      gets `response` as its status and `at` as its response time, whatever its status
      was; every other request stays as it was, and an unknown id changes nothing. */
  function Respond(requests: seq<Request>, requestId: string, response: string, at: string): (r: seq<Request>)
    ensures |r| == |requests|
    ensures forall j :: 0 <= j < |requests| ==>
      r[j] == if FindIndex(requests, HasId(requestId)) == Some(j) then Answer(requests[j], response, at) else requests[j]
  {
    if requests == [] then []
    else if requests[0].id == requestId then [Answer(requests[0], response, at)] + requests[1..]
    else [requests[0]] + Respond(requests[1..], requestId, response, at)
  }

  /** There is no pending-state guard: a second response replaces the first one, status
      and time alike. */
  lemma {:induction false} SecondResponseOverwritesFirst(requests: seq<Request>, requestId: string,
                                                         first: string, t1: string, second: string, t2: string)
    ensures Respond(Respond(requests, requestId, first, t1), requestId, second, t2)
         == Respond(requests, requestId, second, t2)
  {
    if requests != [] {
      var once := Respond(requests, requestId, first, t1);
      if requests[0].id == requestId {
        assert once[0].id == requestId && once[1..] == requests[1..];
      } else {
        SecondResponseOverwritesFirst(requests[1..], requestId, first, t1, second, t2);
        assert once[0] == requests[0] && once[1..] == Respond(requests[1..], requestId, first, t1);
      }
    }
  }

  /** A request carries a response time exactly when it is no longer pending. */
  predicate RespondedIffResolved(r: Request)
  {
    r.respondedAt.Some? <==> r.status != Pending
  }

  predicate AllRespondedIffResolved(requests: seq<Request>)
  {
    forall i :: 0 <= i < |requests| ==> RespondedIffResolved(requests[i])
  }

  /** Sending keeps that invariant, and so does responding with anything but "pending";
      a response of "pending" would break it, since the code stores any response. */
  lemma RespondedIffResolvedIsKept(requests: seq<Request>, sent: Request,
                                   requestId: string, response: string, at: string)
    requires AllRespondedIffResolved(requests)
    requires sent.status == Pending && sent.respondedAt.None?
    ensures AllRespondedIffResolved(requests + [sent])
    ensures response != Pending ==> AllRespondedIffResolved(Respond(requests, requestId, response, at))
    ensures response == Pending && FindIndex(requests, HasId(requestId)).Some? ==>
      !AllRespondedIffResolved(Respond(requests, requestId, response, at))
  {
    var s := requests + [sent];
    forall k | 0 <= k < |s|
      ensures RespondedIffResolved(s[k])
    {
      if k < |requests| {
        assert s[k] == requests[k];
      }
    }
    var after, found := Respond(requests, requestId, response, at), FindIndex(requests, HasId(requestId));
    if response != Pending {
      forall j | 0 <= j < |after|
        ensures RespondedIffResolved(after[j])
      {
        if found == Some(j) {
          assert after[j] == Answer(requests[j], response, at);
        } else {
          assert after[j] == requests[j];
        }
      }
    } else if found.Some? {
      assert after[found.value] == Answer(requests[found.value], response, at);
      assert !RespondedIffResolved(after[found.value]);
    }
  }

  /** The request is addressed to the donor with this display name. */
  function AddressedTo(donorName: string): Request -> bool
  {
    (r: Request) => r.to == donorName
  }

  /** The requests `loadBloodRequests` lists for a donor: matched by display name. Every
      listed request is stored and addressed to that name, and every stored request
      addressed to it is listed. */
  function RequestsFor(requests: seq<Request>, donorName: string): (r: seq<Request>)
    ensures forall i :: 0 <= i < |r| ==> r[i] in requests && r[i].to == donorName
    ensures forall j :: 0 <= j < |requests| && requests[j].to == donorName ==> requests[j] in r
  {
    Filter(requests, AddressedTo(donorName))
  }

  /** The listing holds exactly the requests whose `to` is the donor's name, in the order
      they were sent; a request to another donor who shares that name is listed too. */
  lemma RequestsForKeepsExactlyThoseAddressed(requests: seq<Request>, donorName: string)
    ensures var r, idx := RequestsFor(requests, donorName), KeptIndices(requests, AddressedTo(donorName));
      && |idx| == |r|
      && (forall k :: 0 <= k < |idx| ==> idx[k] < |requests| && r[k] == requests[idx[k]])
      && (forall k, l :: 0 <= k < l < |idx| ==> idx[k] < idx[l])
      && (forall j :: 0 <= j < |requests| ==> (j in idx <==> requests[j].to == donorName))
  {
    FilterKeepsExactlyInOrder(requests, AddressedTo(donorName));
  }

  /** The scenario of a request from "Bob" to "Alice" that Alice declines: the stored
      request is declined, carries a response time, and is listed for Alice. */
  lemma DeclinedRequestIsListedForDonor(requests: seq<Request>, id: string, date: string, at: string)
    requires forall i :: 0 <= i < |requests| ==> requests[i].id != id
    ensures var after := Respond(requests + [NewRequest(id, "Alice", "Bob", "O-", "Dhaka", Some("urgent"), date)],
                                 id, "decline", at);
      && after[|requests|].status == "decline" && after[|requests|].respondedAt == Some(at)
      && after[|requests|] in RequestsFor(after, "Alice")
  {
    var n := |requests|;
    var sent := requests + [NewRequest(id, "Alice", "Bob", "O-", "Dhaka", Some("urgent"), date)];
    assert forall j :: 0 <= j < n ==> sent[j] == requests[j];
    FindIndexIsFirstMatch(sent, HasId(id), n);
    var after := Respond(sent, id, "decline", at);
    assert AddressedTo("Alice")(after[n]);
  }
}
