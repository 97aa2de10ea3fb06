/** Activation jobs and the bounded registry that serves them (`supervisor/jobs.py`). */
module Jobs {
  import opened Prelude

  const MAX_JOBS: nat := 100
  const LOG_TAIL_LINES: nat := 20
  const ID_WIDTH: nat := 8

  datatype JobStatus = Queued | Running | Succeeded | Failed | Cancelled

  predicate IsFinal(s: JobStatus) {
    s == Succeeded || s == Failed || s == Cancelled
  }

  /** What a job says about itself: the value the supervisor's state machine works on. */
  datatype JobRecord = JobRecord(model: string, status: JobStatus)

  // ---------------------------------------------------------------- identifiers

  function Digit(d: nat): (c: char)
    requires d < 10
  {
    ('0' as int + d) as char
  }

  function DigitValue(c: char): nat {
    if '0' <= c <= '9' then c as int - '0' as int else 0
  }

  function Decimal(n: nat): string {
    if n < 10 then [Digit(n)] else Decimal(n / 10) + [Digit(n % 10)]
  }

  function Zeros(n: nat): string {
    seq(n, _ => '0')
  }

  /** `f"{n:08d}"`: zero-padded to eight digits, and simply longer beyond that. */
  function Padded(n: nat): string {
    var digits := Decimal(n);
    if |digits| < ID_WIDTH then Zeros(ID_WIDTH - |digits|) + digits else digits
  }

  function JobId(n: nat): string {
    "act_" + Padded(n)
  }

  function Parse(s: string): nat {
    if s == "" then 0 else Parse(s[..|s| - 1]) * 10 + DigitValue(s[|s| - 1])
  }

  lemma {:induction false} ParseDecimal(n: nat, zeros: nat)
    ensures Parse(Zeros(zeros) + Decimal(n)) == n
  {
    var s := Zeros(zeros) + Decimal(n);
    var init := s[..|s| - 1];
    if n >= 10 {
      assert init == Zeros(zeros) + Decimal(n / 10);
      ParseDecimal(n / 10, zeros);
    } else {
      assert init == Zeros(zeros);
      ParseZeros(zeros);
    }
  }

  lemma {:induction false} ParseZeros(n: nat)
    ensures Parse(Zeros(n)) == 0
  {
    if n > 0 {
      assert Zeros(n)[..n - 1] == Zeros(n - 1);
      ParseZeros(n - 1);
    }
  }

  /** Two different counters never print as the same id, not even past eight digits. */
  lemma JobIdInjective(m: nat, n: nat)
    requires JobId(m) == JobId(n)
    ensures m == n
  {
    assert JobId(m)[4..] == Padded(m) && JobId(n)[4..] == Padded(n);
    ParsePadded(m);
    ParsePadded(n);
  }

  lemma JobIdsDiffer(m: nat, n: nat)
    requires m != n
    ensures JobId(m) != JobId(n)
  {
    if JobId(m) == JobId(n) {
      JobIdInjective(m, n);
    }
  }

  lemma ParsePadded(n: nat)
    ensures Parse(Padded(n)) == n
  {
    var digits := Decimal(n);
    if |digits| < ID_WIDTH {
      ParseDecimal(n, ID_WIDTH - |digits|);
    } else {
      assert Zeros(0) + digits == digits;
      ParseDecimal(n, 0);
    }
  }

  predicate AllDigits(s: string) {
    forall i :: 0 <= i < |s| ==> '0' <= s[i] <= '9'
  }

  lemma {:induction false} DecimalShape(n: nat)
    ensures Decimal(n) != "" && AllDigits(Decimal(n))
    ensures n > 0 ==> Decimal(n)[0] != '0'
  {
    if n >= 10 {
      DecimalShape(n / 10);
    }
  }

  /** Digits throughout, eight at least, and no zero in front of more than eight. */
  lemma PaddedShape(n: nat)
    ensures |Padded(n)| >= ID_WIDTH && AllDigits(Padded(n))
    ensures |Padded(n)| > ID_WIDTH ==> Padded(n)[0] != '0'
  {
    DecimalShape(n);
  }

  lemma DigitIs(d: nat)
    requires d < 10
    ensures Digit(d) == "0123456789"[d]
  {
  }

  lemma JobIdExample()
    ensures JobId(42) == "act_00000042"
  {
    DigitIs(4);
    DigitIs(2);
    assert Decimal(42) == "42" && Zeros(6) == "000000";
  }

  // ------------------------------------------------------------------------ job

  class Job {
    const jobId: string
    const modelId: string
    var status: JobStatus
    var error: Option<string>
    var logTail: seq<string>

    constructor (jobId: string, modelId: string)
      ensures this.jobId == jobId && this.modelId == modelId
      ensures status == Queued && error == None && logTail == []
    {
      this.jobId, this.modelId := jobId, modelId;
      status, error, logTail := Queued, None, [];
    }

    function Record(): JobRecord
      reads this
    {
      JobRecord(modelId, status)
    }

    method Start()
      modifies this`status
      ensures Record() == JobRecord(modelId, Running)
    {
      status := Running;
    }

    method Succeed()
      modifies this`status
      ensures Record() == JobRecord(modelId, Succeeded)
    {
      status := Succeeded;
    }

    method Fail(message: string, lines: seq<string>)
      modifies this
      ensures Record() == JobRecord(modelId, Failed)
      ensures error == Some(message) && logTail == Last(lines, LOG_TAIL_LINES)
    {
      status, error := Failed, Some(message);
      logTail := Last(lines, LOG_TAIL_LINES);
    }
  }

  // ------------------------------------------------------------------- registry

  /** A dict that remembers insertion order: its items, and its keys oldest first. */
  datatype Dict<V> = Dict(keys: seq<string>, items: map<string, V>) {

    ghost predicate Valid() {
      && (forall k :: k in keys <==> k in items)
      && (forall i, j :: 0 <= i < j < |keys| ==> keys[i] != keys[j])
    }

    ghost function Values(): seq<V>
      requires Valid()
    {
      seq(|keys|, i requires 0 <= i < |keys| => items[keys[i]])
    }

    /** Assigning to a key that is not there yet puts it last. */
    function Put(k: string, v: V): (d: Dict<V>)
      requires Valid()
      ensures d.Valid()
      ensures k !in items ==> d.keys == keys + [k] && d.Values() == Values() + [v]
    {
      if k in items then
        this.(items := items[k := v])
      else
        var d := Dict(keys + [k], items[k := v]);
        assert forall x :: x in d.keys <==> x in keys || x == k;
        d
    }

    function PopFirst(): (d: Dict<V>)
      requires Valid() && keys != []
      ensures d.Valid() && d.keys == keys[1..] && d.Values() == Values()[1..]
    {
      var d := Dict(keys[1..], items - {keys[0]});
      PopFirstFacts(d);
      d
    }

    lemma PopFirstFacts(d: Dict<V>)
      requires Valid() && keys != [] && d == Dict(keys[1..], items - {keys[0]})
      ensures d.Valid() && d.Values() == Values()[1..]
    {
      var first := keys[0];
      assert keys == [first] + d.keys;
      assert first !in d.keys;
      forall k
        ensures k in d.keys <==> k in d.items
      {
        assert k in keys <==> k in d.keys || k == first;
      }
      assert forall i :: 0 <= i < |d.keys| ==> d.items[d.keys[i]] == items[d.keys[i]];
    }
  }

  /** `while len(d) > n: d.popitem(last=False)` */
  method Evict<V>(d: Dict<V>, n: nat) returns (r: Dict<V>)
    requires d.Valid()
    ensures r.Valid() && r.Values() == Last(d.Values(), n)
    ensures r.items.Keys <= d.items.Keys && forall k :: k in r.items ==> r.items[k] == d.items[k]
  {
    r := d;
    ghost var gone := 0;
    while |r.keys| > n
      invariant r.Valid() && 0 <= gone <= |d.keys| && r.Values() == d.Values()[gone..]
      invariant gone == 0 || |r.keys| >= n
      invariant r.items.Keys <= d.items.Keys && forall k :: k in r.items ==> r.items[k] == d.items[k]
      decreases |r.keys|
    {
      r := r.PopFirst();
      gone := gone + 1;
    }
    LastIs(d.Values(), gone, n);
  }

  /** Bounded and insertion-ordered. `Log` is every job ever created: what an unbounded
      registry would hold. */
  class JobRegistry {
    const maxJobs: nat
    var jobs: Dict<Job>
    var counter: nat
    ghost var Log: seq<Job>

    ghost predicate Valid()
      reads this
    {
      && counter == |Log| + 1
      && Numbered(Log)
      && jobs.Valid()
      && jobs.Values() == Last(Log, maxJobs)
      && KeyedById(jobs)
    }

    constructor (maxJobs: nat := MAX_JOBS)
      ensures Valid() && Log == [] && this.maxJobs == maxJobs
    {
      this.maxJobs := maxJobs;
      jobs, counter, Log := Dict([], map[]), 1, [];
    }

    /** The registry stays the last `maxJobs` entries of everything ever created, oldest first. */
    method Create(modelId: string) returns (job: Job)
      requires Valid()
      modifies this
      ensures Valid() && fresh(job)
      ensures Log == old(Log) + [job]
      ensures job.jobId == JobId(|Log|) && job.Record() == JobRecord(modelId, Queued)
    {
      job := new Job(JobId(counter), modelId);
      NewIdUnused(job.jobId);
      ghost var all := Log + [job];
      assert Numbered(all);
      var grown := jobs.Put(job.jobId, job);
      assert KeyedById(grown);
      var kept := Evict(grown, maxJobs);
      assert kept.Values() == Last(all, maxJobs) by {
        LastOfAppend(Log, job, maxJobs);
      }
      assert KeyedById(kept);
      counter, jobs, Log := counter + 1, kept, all;
    }

    lemma NewIdUnused(id: string)
      requires Valid() && id == JobId(|Log| + 1)
      ensures id !in jobs.items
    {
      if id in jobs.items {
        var i := KeyPosition(id);
        JobIdsDiffer(|Log| - |jobs.keys| + i + 1, |Log| + 1);
      }
    }

    /** Where in the dict an id is, and therefore which job it names. */
    lemma KeyPosition(id: string) returns (i: nat)
      requires Valid() && id in jobs.items
      ensures i < |jobs.keys| && jobs.keys[i] == id
      ensures var k := |Log| - |jobs.keys| + i; id == JobId(k + 1) && jobs.items[id] == Log[k]
    {
      assert id in jobs.keys;
      i :| 0 <= i < |jobs.keys| && jobs.keys[i] == id;
      assert |jobs.Values()| == |jobs.keys| && jobs.Values()[i] == jobs.items[id];
      LastAt(Log, maxJobs, i);
    }

    /** Looking up the id of the k-th job ever created. */
    lemma LookupById(k: nat)
      requires Valid() && 1 <= k <= |Log|
      ensures JobId(k) in jobs.items <==> k > |Log| - maxJobs
      ensures JobId(k) in jobs.items ==> jobs.items[JobId(k)] == Log[k - 1]
    {
      var base := |Log| - |jobs.keys|;
      if JobId(k) in jobs.items {
        var i := KeyPosition(JobId(k));
        JobIdInjective(k, base + i + 1);
      }
      if k > base {
        var i := k - 1 - base;
        assert Last(Log, maxJobs)[i] == Log[k - 1];
        assert jobs.keys[i] in jobs.keys;
        assert jobs.Values()[i] == jobs.items[jobs.keys[i]];
      }
    }

    /** The k-th job ever created is found exactly while fewer than `maxJobs` came after it. */
    method Get(id: string) returns (r: Option<Job>)
      requires Valid()
      ensures forall k :: 1 <= k <= |Log| && id == JobId(k) ==>
                            r == if k > |Log| - maxJobs then Some(Log[k - 1]) else None
      ensures (forall k :: 1 <= k <= |Log| ==> id != JobId(k)) ==> r == None
    {
      r := if id in jobs.items then Some(jobs.items[id]) else None;
      forall k | 1 <= k <= |Log| && id == JobId(k)
        ensures r == if k > |Log| - maxJobs then Some(Log[k - 1]) else None
      {
        LookupById(k);
      }
      if id in jobs.items {
        ghost var i := KeyPosition(id);
      }
    }
  }

  ghost predicate Numbered(log: seq<Job>) {
    forall i :: 0 <= i < |log| ==> log[i].jobId == JobId(i + 1)
  }

  ghost predicate KeyedById(jobs: Dict<Job>) {
    forall k :: k in jobs.items ==> jobs.items[k].jobId == k
  }
}
