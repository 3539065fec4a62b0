/**
 * The job-seeker's swipe page (src/pages/Index.tsx): an index into a fixed list
 * of offers, advanced by every swipe and clamped to the last offer.
 */
module SwipeQueue {
  import opened Wrappers
  import opened JobCard

  /** One job offer shown on a card; every field is display data. */
  datatype Job = Job(id: string, title: string, company: string, location: string,
                     salary: string, skills: seq<string>)

  /** The three offers the page is built with (their descriptions are not modelled). */
  function SampleJobs(): (js: seq<Job>)
    ensures |js| == 3
    ensures forall i, j :: 0 <= i < j < |js| ==> js[i].id != js[j].id
  {
    [ Job("1", "Développeur Frontend React", "Tech Solutions", "Paris, France", "45-60k€/an",
          ["React", "TypeScript", "CSS", "Git"]),
      Job("2", "Développeur Full Stack", "Digital Agency", "Lyon, France", "50-65k€/an",
          ["React", "Node.js", "PostgreSQL", "AWS"]),
      Job("3", "Ingénieur DevOps", "Cloud Solutions", "Bordeaux, France", "55-70k€/an",
          ["Docker", "Kubernetes", "AWS", "CI/CD"]) ]
  }

  function Min(a: int, b: int): (r: int)
  {
    if a <= b then a else b
  }

  /** The index after one swipe on a list of `len` offers: `Math.min(prev + 1, len - 1)`. */
  function Advance(len: int, prev: int): (r: int)
    ensures r <= prev + 1 && r <= len - 1
    ensures r == prev + 1 || r == len - 1
  {
    Min(prev + 1, len - 1)
  }

  /** The index after `k` swipes from the initial index 0. */
  function IndexAfter(len: int, k: nat): (r: int)
  {
    if k == 0 then 0 else Advance(len, IndexAfter(len, k - 1))
  }

  /** After `k` swipes on a non-empty list the index is `min(k, len - 1)`, whatever the directions. */
  lemma {:induction false} IndexAfterIsMin(len: int, k: nat)
    requires len >= 1
    ensures IndexAfter(len, k) == Min(k, len - 1)
  {
    if k > 0 {
      IndexAfterIsMin(len, k - 1);
    }
  }

  /** On a non-empty list the index always names an offer, so the "no more offers" screen never shows. */
  lemma {:induction false} IndexAfterInBounds(len: int, k: nat)
    requires len >= 1
    ensures 0 <= IndexAfter(len, k) < len
  {
    IndexAfterIsMin(len, k);
  }

  /** The index is never negative, and on a non-empty list it stays below the length. */
  lemma IndexAfterValid(len: int, k: nat)
    requires len >= 1 || k == 0
    ensures 0 <= IndexAfter(len, k)
    ensures len >= 1 ==> IndexAfter(len, k) < len
  {
    if len >= 1 {
      IndexAfterInBounds(len, k);
    }
  }

  /** The index never moves back: the offer shown after `k` swipes comes no later than after `k'`. */
  lemma {:induction false} IndexAfterMonotone(len: int, k: nat, k': nat)
    requires len >= 1 && k <= k'
    ensures IndexAfter(len, k) <= IndexAfter(len, k')
  {
    IndexAfterIsMin(len, k);
    IndexAfterIsMin(len, k');
  }

  /** Once the last offer is shown, a swipe keeps it shown. */
  lemma AdvanceAtLast(len: int)
    requires len >= 1
    ensures Advance(len, len - 1) == len - 1
  {
  }

  /** Before the last offer, a swipe moves to the next one. */
  lemma AdvanceBeforeLast(len: int, prev: int)
    requires prev < len - 1
    ensures Advance(len, prev) == prev + 1
  {
  }

  /** What the page's main area shows. */
  datatype Screen = ShowCard(job: Job) | NoMoreOffers

  /** The page state: the list of offers and `currentJobIndex`. */
  class JobQueue {
    const jobs: seq<Job>
    var idx: int
    /** The swipes handled so far, oldest first. */
    ghost var history: seq<Direction>

    ghost predicate Valid()
      reads this
    {
      && idx == IndexAfter(|jobs|, |history|)
      && (jobs == [] ==> history == [])
    }

    /** `useState(0)`: the page opens on the first offer. */
    constructor (jobs: seq<Job>)
      ensures Valid()
      ensures this.jobs == jobs && idx == 0 && history == []
    {
      this.jobs := jobs;
      idx := 0;
      history := [];
    }

    /** The render condition: a card for `jobs[idx]` when the index is in range, otherwise the "no more offers" message. */
    function View(): (s: Screen)
      requires Valid()
      reads this
      ensures s.ShowCard? <==> 0 <= idx < |jobs|
      ensures s.ShowCard? ==> s.job == jobs[idx]
      ensures jobs != [] ==> s.ShowCard?
    {
      IndexAfterValid(|jobs|, |history|);
      if idx < |jobs| then ShowCard(jobs[idx])
      else NoMoreOffers
    }

    /**
     * `handleSwipe`: a `Right` swipe raises the "Candidature envoyée" notification, and
     * every swipe moves the index to `min(idx + 1, len - 1)`. A swipe comes from the card,
     * so the page has at least one offer.
     */
    method Swipe(dir: Direction) returns (notified: bool)
      requires Valid() && jobs != []
      modifies this
      ensures Valid()
      ensures notified <==> dir == Right
      ensures idx == Advance(|jobs|, old(idx))
      ensures history == old(history) + [dir]
      ensures 0 <= idx < |jobs|
    {
      notified := dir == Right;
      idx := Min(idx + 1, |jobs| - 1);
      history := history + [dir];
      IndexAfterInBounds(|jobs|, |history|);
    }
  }

  /**
   * An example of use, not a model of a source function: the page fed the events of
   * three dragged and pressed cards. The index stops at the last offer rather than
   * running past the list.
   */
  method ClampScenario()
  {
    var q := new JobQueue(SampleJobs());
    var d := Emit(DragEnded(150.0));
    assert d == Some(Right);
    var n := q.Swipe(d.value);
    assert n && q.idx == 1 && q.View() == ShowCard(SampleJobs()[1]);
    d := Emit(DragEnded(-120.0));
    n := q.Swipe(d.value);
    assert !n && q.idx == 2;
    assert Emit(DragEnded(10.0)).None?;
    n := q.Swipe(Emit(PostulerClicked).value);
    assert n && q.idx == 2 && q.View() == ShowCard(SampleJobs()[2]);
  }
}
