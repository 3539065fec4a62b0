/**
 * The recruiter's dashboard (src/pages/dashboard/RecruiterDashboard.tsx): the list of
 * job offers loaded from the `job_offers` table, the count of active offers shown in
 * the first statistic card, and deletion of an offer.
 */
module RecruiterDashboard {
  import opened Wrappers

  /** A row of `job_offers`. */
  datatype JobOffer = JobOffer(id: string, title: string, company: string, location: string,
                               status: string, createdAt: string)

  /** `jobOffers.filter(job => job.status === 'active')`. */
  function ActiveOffers(offers: seq<JobOffer>): (r: seq<JobOffer>)
    ensures |r| <= |offers|
    ensures forall o :: o in r <==> o in offers && o.status == "active"
  {
    if offers == [] then []
    else (if offers[0].status == "active" then [offers[0]] else []) + ActiveOffers(offers[1..])
  }

  /** `stats.activeJobs`: the number of active offers. */
  function ActiveJobs(offers: seq<JobOffer>): (n: nat)
    ensures n <= |offers|
    ensures n == 0 <==> forall o :: o in offers ==> o.status != "active"
  {
    var active := ActiveOffers(offers);
    assert active != [] ==> active[0] in active;
    |active|
  }

  /** The count of active offers adds up over consecutive parts of the list. */
  lemma {:induction false} ActiveJobsAppend(a: seq<JobOffer>, b: seq<JobOffer>)
    ensures ActiveJobs(a + b) == ActiveJobs(a) + ActiveJobs(b)
  {
    if a == [] {
      assert a + b == b;
    } else {
      assert (a + b)[1..] == a[1..] + b;
      ActiveJobsAppend(a[1..], b);
    }
  }

  /** Every offer counts as active exactly when all of them are: the count reaches the length only then. */
  lemma {:induction false} ActiveJobsAll(offers: seq<JobOffer>)
    ensures ActiveJobs(offers) == |offers| <==> forall o :: o in offers ==> o.status == "active"
  {
    if offers != [] {
      ActiveJobsAll(offers[1..]);
      assert forall o :: o in offers <==> o == offers[0] || o in offers[1..];
    }
  }

  /** `prev.filter(offer => offer.id !== id)`. */
  function RemoveOffer(offers: seq<JobOffer>, id: string): (r: seq<JobOffer>)
    ensures |r| <= |offers|
    ensures forall o :: o in r <==> o in offers && o.id != id
  {
    if offers == [] then []
    else (if offers[0].id == id then [] else [offers[0]]) + RemoveOffer(offers[1..], id)
  }

  /** Deleting from a list with a first offer: that offer goes exactly when it has the id. */
  lemma RemoveOfferCons(o: JobOffer, rest: seq<JobOffer>, id: string)
    ensures RemoveOffer([o] + rest, id) == (if o.id == id then [] else [o]) + RemoveOffer(rest, id)
  {
  }

  /** Deleting works piece by piece, so the offers that stay keep their relative order. */
  lemma {:induction false} RemoveOfferAppend(a: seq<JobOffer>, b: seq<JobOffer>, id: string)
    ensures RemoveOffer(a + b, id) == RemoveOffer(a, id) + RemoveOffer(b, id)
  {
    if a == [] {
      assert a + b == b;
    } else {
      var head := if a[0].id == id then [] else [a[0]];
      calc {
        RemoveOffer(a + b, id);
        { assert a + b == [a[0]] + (a[1..] + b); }
        RemoveOffer([a[0]] + (a[1..] + b), id);
        { RemoveOfferCons(a[0], a[1..] + b, id); }
        head + RemoveOffer(a[1..] + b, id);
        { RemoveOfferAppend(a[1..], b, id); }
        head + (RemoveOffer(a[1..], id) + RemoveOffer(b, id));
        (head + RemoveOffer(a[1..], id)) + RemoveOffer(b, id);
        { RemoveOfferCons(a[0], a[1..], id); assert [a[0]] + a[1..] == a; }
        RemoveOffer(a, id) + RemoveOffer(b, id);
      }
    }
  }

  /** Deleting an id that no offer has leaves the list as it was. */
  lemma {:induction false} RemoveAbsentOffer(offers: seq<JobOffer>, id: string)
    requires forall o :: o in offers ==> o.id != id
    ensures RemoveOffer(offers, id) == offers
  {
    if offers != [] {
      RemoveAbsentOffer(offers[1..], id);
      assert [offers[0]] + offers[1..] == offers;
    }
  }

  /** Deleting the same id a second time changes nothing. */
  lemma RemoveOfferIdempotent(offers: seq<JobOffer>, id: string)
    ensures RemoveOffer(RemoveOffer(offers, id), id) == RemoveOffer(offers, id)
  {
    RemoveAbsentOffer(RemoveOffer(offers, id), id);
  }

  /** Deleting never adds active offers. */
  lemma {:induction false} RemoveOfferActiveJobs(offers: seq<JobOffer>, id: string)
    ensures ActiveJobs(RemoveOffer(offers, id)) <= ActiveJobs(offers)
  {
    if offers != [] {
      var head := if offers[0].id == id then [] else [offers[0]];
      RemoveOfferActiveJobs(offers[1..], id);
      ActiveJobsAppend(head, RemoveOffer(offers[1..], id));
      ActiveJobsAppend([offers[0]], offers[1..]);
      assert [offers[0]] + offers[1..] == offers;
    }
  }

  /** The result of the `select` on `job_offers`: a failure, or rows that may be `null`. */
  datatype SelectReply = SelectFailed | Selected(data: Option<seq<JobOffer>>)

  /** The notifications the dashboard raises. */
  datatype DashboardToast = LoadFailed | OfferDeleted | DeleteFailed

  /** The dashboard's state. */
  class Dashboard {
    var jobOffers: seq<JobOffer>
    var isLoading: bool
    /** The ids sent to the backend in `delete().eq('id', id)` requests, oldest first. */
    ghost var deleteRequests: seq<string>

    /** The initial state: no offers, loading. */
    constructor ()
      ensures jobOffers == [] && isLoading && deleteRequests == []
    {
      jobOffers := [];
      isLoading := true;
      deleteRequests := [];
    }

    /**
     * `fetchJobOffers`: rows replace the list (`data || []`), a failure keeps it and
     * raises the error notification, and `finally` clears `isLoading` on every path.
     * The rows come ordered by the backend; their order is taken as given.
     */
    method FetchJobOffers(reply: SelectReply) returns (toast: Option<DashboardToast>)
      modifies this
      ensures !isLoading && deleteRequests == old(deleteRequests)
      ensures reply == SelectFailed ==> jobOffers == old(jobOffers) && toast == Some(LoadFailed)
      ensures reply.Selected? ==> toast == None
      ensures reply == Selected(None) ==> jobOffers == []
      ensures reply.Selected? && reply.data.Some? ==> jobOffers == reply.data.value
    {
      toast := None;
      if reply.SelectFailed? {
        toast := Some(LoadFailed);
      } else {
        jobOffers := if reply.data.Some? then reply.data.value else [];
      }
      isLoading := false;
    }

    /**
     * `handleDeleteOffer`: a declined confirmation returns before any request; otherwise
     * the delete is sent, and only when it succeeds is the offer filtered out of the list.
     */
    method DeleteOffer(id: string, confirmed: bool, reply: Outcome) returns (toast: Option<DashboardToast>)
      modifies this
      ensures isLoading == old(isLoading)
      ensures !confirmed ==> toast == None && jobOffers == old(jobOffers) && deleteRequests == old(deleteRequests)
      ensures confirmed ==> deleteRequests == old(deleteRequests) + [id]
      ensures confirmed && reply == Success ==>
                jobOffers == RemoveOffer(old(jobOffers), id) && toast == Some(OfferDeleted)
      ensures confirmed && reply == Failure ==>
                jobOffers == old(jobOffers) && toast == Some(DeleteFailed)
    {
      if !confirmed {
        return None;
      }
      deleteRequests := deleteRequests + [id];
      if reply == Success {
        jobOffers := RemoveOffer(jobOffers, id);
        toast := Some(OfferDeleted);
      } else {
        toast := Some(DeleteFailed);
      }
    }
  }
}
