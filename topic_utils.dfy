/** redpanda/kafka/requests/topics/topic_utils.h: per-topic validation of the
  * items of a topic request. A validation partitions the request range in
  * place (valid items first) and emits one error result per rejected item. */
module TopicUtils {
  import opened Common

  /** Kafka protocol error codes. */
  const ErrorNone := 0
  const NotController := 41
  const InvalidRequest := 42

  /** A `topic_op_result`: the topic, its error code and an optional message. */
  datatype TopicOpResult = TopicOpResult(topic: string, errorCode: int, errMsg: Option<string>)

  /** generate_error: a failed result for one request item; `name` reads an
    * item's topic. */
  function GenerateError<T>(item: T, name: T -> string, code: int, msg: string): TopicOpResult
  {
    TopicOpResult(name(item), code, Some(msg))
  }

  /** generate_successfull_result: the item's topic with error `none` and no
    * message. */
  function GenerateSuccessfulResult<T>(item: T, name: T -> string): TopicOpResult
  {
    TopicOpResult(name(item), ErrorNone, None)
  }

  /** The `std::transform` over a range of items: one error per item, in the
    * items' order, each naming its item's topic. */
  function GenerateErrors<T>(items: seq<T>, name: T -> string, code: int, msg: string): (r: seq<TopicOpResult>)
    ensures |r| == |items|
    ensures forall i :: 0 <= i < |items| ==>
      r[i].topic == name(items[i]) && r[i].errorCode == code && r[i].errMsg == Some(msg)
  {
    if items == [] then []
    else [GenerateError(items[0], name, code, msg)] + GenerateErrors(items[1..], name, code, msg)
  }

  /** generate_not_controller_errors: a `not_controller` error per item, in
    * input order, with the fixed message. */
  function GenerateNotControllerErrors<T>(items: seq<T>, name: T -> string): (r: seq<TopicOpResult>)
    ensures |r| == |items|
    ensures forall i :: 0 <= i < |items| ==>
      r[i] == TopicOpResult(name(items[i]), 41, Some("Current node is not a cluster controller"))
  {
    GenerateErrors(items, name, NotController, "Current node is not a cluster controller")
  }

  // ---------------------------------------------------------------------------
  // Partitioning.

  /** The items of `s` that satisfy `p`, in order. */
  function Filter<T>(s: seq<T>, p: T -> bool): seq<T>
  {
    if s == [] then []
    else (if p(s[0]) then [s[0]] else []) + Filter(s[1..], p)
  }

  /** Filtering keeps every copy of a satisfying item and none of the others,
    * so it depends only on the multiset of items. */
  lemma {:induction false} FilterMultiset<T>(s: seq<T>, p: T -> bool, x: T)
    ensures multiset(Filter(s, p))[x] == if p(x) then multiset(s)[x] else 0
  {
    if s != [] {
      FilterMultiset(s[1..], p, x);
      assert s == [s[0]] + s[1..];
    }
  }

  /** The negation of a predicate: the items a validation rejects. */
  function Rejects<T>(p: T -> bool): T -> bool
  {
    x => !p(x)
  }

  /** A range whose first `k` items satisfy `p` and whose others do not is
    * its satisfying items followed by its rejected ones. */
  lemma {:induction false} FilterPartitioned<T>(s: seq<T>, k: nat, p: T -> bool)
    requires k <= |s|
    requires forall i :: 0 <= i < k ==> p(s[i])
    requires forall i :: k <= i < |s| ==> !p(s[i])
    ensures Filter(s, p) == s[..k]
    ensures Filter(s, Rejects(p)) == s[k..]
  {
    if s != [] {
      if k > 0 {
        FilterPartitioned(s[1..], k - 1, p);
        assert s[..k] == [s[0]] + s[1..][..k - 1];
      } else {
        FilterPartitioned(s[1..], 0, p);
      }
    }
  }

  /** Multisets with the same multiplicities are equal. */
  lemma MultisetExtensional<T>(m: multiset<T>, n: multiset<T>)
    requires forall x :: m[x] == n[x]
    ensures m == n
  {
  }

  /** Permuted ranges have permuted filters. */
  lemma FilterPermuted<T>(s: seq<T>, t: seq<T>, p: T -> bool)
    requires multiset(s) == multiset(t)
    ensures multiset(Filter(s, p)) == multiset(Filter(t, p))
  {
    forall x ensures multiset(Filter(s, p))[x] == multiset(Filter(t, p))[x] {
      FilterMultiset(s, p, x);
      FilterMultiset(t, p, x);
    }
    MultisetExtensional(multiset(Filter(s, p)), multiset(Filter(t, p)));
  }

  /** After a partition of a permutation of `t` at `k`, the items before `k`
    * are exactly the satisfying items of `t` and the others exactly its
    * rejected ones, with their multiplicities. */
  lemma PartitionedByFilter<T>(s: seq<T>, t: seq<T>, k: nat, p: T -> bool)
    requires k <= |s| && multiset(s) == multiset(t)
    requires forall i :: 0 <= i < k ==> p(s[i])
    requires forall i :: k <= i < |s| ==> !p(s[i])
    ensures multiset(s[..k]) == multiset(Filter(t, p))
    ensures multiset(s[k..]) == multiset(Filter(t, Rejects(p)))
  {
    FilterPartitioned(s, k, p);
    FilterPermuted(s, t, p);
    FilterPermuted(s, t, Rejects(p));
  }

  /** `std::partition(begin, begin + hi, p)` as libstdc++ implements it for
    * bidirectional iterators: move forward over satisfying items, backward
    * over failing ones, and swap the pair that is out of place. The items at
    * `hi` and beyond are not touched. */
  method Partition<T>(a: array<T>, hi: nat, p: T -> bool) returns (mid: nat)
    requires hi <= a.Length
    modifies a
    ensures mid <= hi
    ensures a[hi..] == old(a[hi..])
    ensures multiset(a[..hi]) == multiset(old(a[..hi]))
    ensures forall i :: 0 <= i < mid ==> p(a[i])
    ensures forall i :: mid <= i < hi ==> !p(a[i])
  {
    var first, last := 0, hi;
    while true
      invariant 0 <= first <= last <= hi
      invariant a[hi..] == old(a[hi..])
      invariant multiset(a[..hi]) == multiset(old(a[..hi]))
      invariant forall i :: 0 <= i < first ==> p(a[i])
      invariant forall i :: last <= i < hi ==> !p(a[i])
      decreases last - first
    {
      while first < last && p(a[first])
        invariant first <= last
        invariant forall i :: 0 <= i < first ==> p(a[i])
        decreases last - first
      {
        first := first + 1;
      }
      if first == last {
        return first;
      }
      last := last - 1;
      while first < last && !p(a[last])
        invariant first <= last
        invariant forall i :: last < i < hi ==> !p(a[i])
        decreases last
      {
        last := last - 1;
      }
      if first == last {
        return first;
      }
      SwapInPrefix(a, hi, first, last);
      first := first + 1;
    }
  }

  /** `std::iter_swap` of two items before `hi`. */
  method SwapInPrefix<T>(a: array<T>, hi: nat, i: nat, j: nat)
    requires i < j < hi <= a.Length
    modifies a
    ensures a[..] == old(a[..])[i := old(a[j])][j := old(a[i])]
    ensures a[hi..] == old(a[hi..])
    ensures multiset(a[..hi]) == multiset(old(a[..hi]))
  {
    a[i], a[j] := a[j], a[i];
    assert a[..hi] == old(a[..hi])[i := old(a[j])][j := old(a[i])];
  }

  /** validate_requests_range with one predicate: partition the first `hi`
    * items by `p` and emit, for each rejected item in its new order, an error
    * with `code` and `msg`. By `PartitionedByFilter`, the rejected items are
    * exactly the input items failing `p`, with their multiplicities. */
  method ValidateRequestsRange<T>(a: array<T>, hi: nat, name: T -> string, code: int, msg: string, p: T -> bool)
    returns (validEnd: nat, errors: seq<TopicOpResult>)
    requires hi <= a.Length
    modifies a
    ensures validEnd <= hi
    ensures a[hi..] == old(a[hi..])
    ensures multiset(a[..hi]) == multiset(old(a[..hi]))
    ensures forall i :: 0 <= i < validEnd ==> p(a[i])
    ensures forall i :: validEnd <= i < hi ==> !p(a[i])
    ensures errors == GenerateErrors(a[validEnd..hi], name, code, msg)
  {
    validEnd := Partition(a, hi, p);
    errors := GenerateErrors(a[validEnd..hi], name, code, msg);
  }

  // ---------------------------------------------------------------------------
  // A list of validators.

  /** A validator type: its error code, its message and its predicate. */
  datatype Validator<-T> = Validator(code: int, message: string, isValid: T -> bool)

  /** The index of the first validator an item fails, if any. */
  function FirstFailing<T>(vs: seq<Validator<T>>, x: T): (r: Option<nat>)
    ensures r.None? <==> forall j :: 0 <= j < |vs| ==> vs[j].isValid(x)
    ensures r.Some? ==> r.value < |vs| && !vs[r.value].isValid(x)
    ensures r.Some? ==> forall j :: 0 <= j < r.value ==> vs[j].isValid(x)
  {
    if vs == [] then None
    else if !vs[0].isValid(x) then Some(0)
    else match FirstFailing(vs[1..], x)
      case None => None
      case Some(j) => Some(j + 1)
  }

  /** The error an item rejected by a validator list carries: that of the
    * first validator it fails (an item that passes them all has none, and
    * its entry here is its success result). */
  function Rejection<T>(vs: seq<Validator<T>>, name: T -> string, x: T): TopicOpResult
  {
    match FirstFailing(vs, x)
    case Some(j) => GenerateError(x, name, vs[j].code, vs[j].message)
    case None => GenerateSuccessfulResult(x, name)
  }

  function Rejections<T>(vs: seq<Validator<T>>, name: T -> string, s: seq<T>): (r: seq<TopicOpResult>)
    ensures |r| == |s|
    ensures forall i :: 0 <= i < |s| ==> r[i] == Rejection(vs, name, s[i])
  {
    if s == [] then [] else [Rejection(vs, name, s[0])] + Rejections(vs, name, s[1..])
  }

  /** The item passes validators 0..k-1. */
  predicate PassesFirst<T>(vs: seq<Validator<T>>, k: nat, x: T)
    requires k <= |vs|
  {
    forall j :: 0 <= j < k ==> vs[j].isValid(x)
  }

  lemma RejectionsAppend<T>(vs: seq<Validator<T>>, name: T -> string, s: seq<T>, t: seq<T>)
    ensures Rejections(vs, name, s + t) == Rejections(vs, name, s) + Rejections(vs, name, t)
  {
    var l, r := Rejections(vs, name, s + t), Rejections(vs, name, s) + Rejections(vs, name, t);
    forall i | 0 <= i < |l| ensures l[i] == r[i] {
      if i < |s| { assert (s + t)[i] == s[i]; } else { assert (s + t)[i] == t[i - |s|]; }
    }
  }

  /** An item that passes the first `k` validators and fails validator `k`
    * is rejected with validator `k`'s error. */
  lemma RejectedAt<T>(vs: seq<Validator<T>>, name: T -> string, k: nat, x: T)
    requires k < |vs| && !vs[k].isValid(x) && PassesFirst(vs, k, x)
    ensures FirstFailing(vs, x) == Some(k)
    ensures Rejection(vs, name, x) == GenerateError(x, name, vs[k].code, vs[k].message)
  {
    var r := FirstFailing(vs, x);
    assert r.Some?;
  }

  /** The errors of one validator's block are the rejections of its items. */
  lemma BlockRejections<T>(vs: seq<Validator<T>>, name: T -> string, k: nat, block: seq<T>)
    requires k < |vs|
    requires forall i :: 0 <= i < |block| ==> !vs[k].isValid(block[i]) && PassesFirst(vs, k, block[i])
    ensures GenerateErrors(block, name, vs[k].code, vs[k].message) == Rejections(vs, name, block)
    ensures forall i :: 0 <= i < |block| ==> FirstFailing(vs, block[i]).Some?
  {
    forall i | 0 <= i < |block|
      ensures GenerateErrors(block, name, vs[k].code, vs[k].message)[i] == Rejections(vs, name, block)[i]
      ensures FirstFailing(vs, block[i]).Some?
    {
      RejectedAt(vs, name, k, block[i]);
    }
  }

  /** A property every item of `t` has, every item of a permutation of `t`
    * has. */
  lemma PassesFirstPermuted<T>(s: seq<T>, t: seq<T>, vs: seq<Validator<T>>, k: nat)
    requires k <= |vs| && multiset(s) == multiset(t)
    requires forall i :: 0 <= i < |t| ==> PassesFirst(vs, k, t[i])
    ensures forall i :: 0 <= i < |s| ==> PassesFirst(vs, k, s[i])
  {
    forall i | 0 <= i < |s| ensures PassesFirst(vs, k, s[i]) {
      assert s[i] in multiset(t);
      var i0 :| 0 <= i0 < |t| && t[i0] == s[i];
    }
  }

  /** Shape of the validator-list loop after `k` validators, over the
    * range's contents `s`: the first `validEnd` items pass validators
    * 0..k-1, every later item failed one of them, and `errors` holds one
    * rejection per later item. */
  ghost predicate Validated<T>(s: seq<T>, vs: seq<Validator<T>>, name: T -> string, k: nat,
                               validEnd: nat, errors: seq<TopicOpResult>, original: multiset<T>)
  {
    k <= |vs| && validEnd <= |s| &&
    multiset(s) == original &&
    (forall i :: 0 <= i < validEnd ==> PassesFirst(vs, k, s[i])) &&
    (forall i :: validEnd <= i < |s| ==> FirstFailing(vs, s[i]).Some?) &&
    multiset(errors) == multiset(Rejections(vs, name, s[validEnd..]))
  }

  /** The errors of a validator's block, appended to those of the earlier
    * blocks, are one rejection per item from the block's start on. */
  lemma ErrorsStep<T>(s1: seq<T>, vs: seq<Validator<T>>, name: T -> string, k: nat,
                      e: nat, e': nat, errors: seq<TopicOpResult>)
    requires k < |vs| && e' <= e <= |s1|
    requires multiset(errors) == multiset(Rejections(vs, name, s1[e..]))
    requires forall i :: e' <= i < e ==> !vs[k].isValid(s1[i]) && PassesFirst(vs, k, s1[i])
    ensures multiset(errors + GenerateErrors(s1[e'..e], name, vs[k].code, vs[k].message)) ==
      multiset(Rejections(vs, name, s1[e'..]))
  {
    var block := s1[e'..e];
    assert GenerateErrors(block, name, vs[k].code, vs[k].message) == Rejections(vs, name, block) by {
      forall i | 0 <= i < |block| ensures !vs[k].isValid(block[i]) && PassesFirst(vs, k, block[i]) {
        assert block[i] == s1[e' + i];
      }
      BlockRejections(vs, name, k, block);
    }
    assert Rejections(vs, name, s1[e'..]) == Rejections(vs, name, block) + Rejections(vs, name, s1[e..]) by {
      SliceSplit(s1, e', e);
      RejectionsAppend(vs, name, block, s1[e..]);
    }
    MultisetOfAppend(errors, Rejections(vs, name, block));
    MultisetOfAppend(Rejections(vs, name, block), Rejections(vs, name, s1[e..]));
  }

  lemma SliceSplit<X>(s: seq<X>, i: nat, j: nat)
    requires i <= j <= |s|
    ensures s[i..] == s[i..j] + s[j..]
  {
  }

  lemma MultisetOfAppend<X>(a: seq<X>, b: seq<X>)
    ensures multiset(a + b) == multiset(a) + multiset(b)
  {
  }

  /** The items a validator rejects have a first failing validator. */
  lemma FailingStep<T>(s1: seq<T>, vs: seq<Validator<T>>, k: nat, e: nat, e': nat)
    requires k < |vs| && e' <= e <= |s1|
    requires forall i :: e' <= i < e ==> !vs[k].isValid(s1[i]) && PassesFirst(vs, k, s1[i])
    ensures forall i :: e' <= i < e ==> FirstFailing(vs, s1[i]).Some?
  {
    forall i | e' <= i < e ensures FirstFailing(vs, s1[i]).Some? {
      RejectedAt(vs, (x: T) => "", k, s1[i]);
    }
  }

  /** The items before the old end, which passed validators 0..k-1 and were
    * only permuted, pass them still; those left valid pass validator `k`
    * too. */
  lemma PassesStep<T>(s0: seq<T>, s1: seq<T>, vs: seq<Validator<T>>, k: nat, e: nat, e': nat)
    requires k < |vs| && e' <= e <= |s0| && e <= |s1|
    requires forall i :: 0 <= i < e ==> PassesFirst(vs, k, s0[i])
    requires multiset(s1[..e]) == multiset(s0[..e])
    requires forall i :: 0 <= i < e' ==> vs[k].isValid(s1[i])
    ensures forall i :: 0 <= i < e ==> PassesFirst(vs, k, s1[i])
    ensures forall i :: 0 <= i < e' ==> PassesFirst(vs, k + 1, s1[i])
  {
    PassesFirstPermuted(s1[..e], s0[..e], vs, k);
    forall i | 0 <= i < e ensures PassesFirst(vs, k, s1[i]) {
      assert s1[i] == s1[..e][i];
    }
  }

  /** One validator's partition of the valid prefix keeps the shape, one
    * validator further. */
  lemma ValidatedStep<T>(s0: seq<T>, s1: seq<T>, vs: seq<Validator<T>>, name: T -> string, k: nat,
                         e: nat, e': nat, errors: seq<TopicOpResult>, original: multiset<T>)
    requires k < |vs| && Validated(s0, vs, name, k, e, errors, original)
    requires e' <= e && |s1| == |s0|
    requires s1[e..] == s0[e..] && multiset(s1[..e]) == multiset(s0[..e])
    requires forall i :: 0 <= i < e' ==> vs[k].isValid(s1[i])
    requires forall i :: e' <= i < e ==> !vs[k].isValid(s1[i])
    ensures Validated(s1, vs, name, k + 1, e',
                      errors + GenerateErrors(s1[e'..e], name, vs[k].code, vs[k].message), original)
  {
    assert s0 == s0[..e] + s0[e..];
    assert s1 == s1[..e] + s1[e..];
    PassesStep(s0, s1, vs, k, e, e');
    ErrorsStep(s1, vs, name, k, e, e', errors);
    FailingStep(s1, vs, k, e, e');
    forall i | e <= i < |s1| ensures FirstFailing(vs, s1[i]).Some? {
      assert s1[i] == s1[e..][i - e] == s0[e..][i - e] == s0[i];
    }
  }

  /** validate_requests_range with a validator list: each validator in turn
    * partitions what the previous ones left valid. The survivors pass every
    * validator; every other item failed one, and the errors hold exactly one
    * entry per rejected item, with the code and message of the first
    * validator it failed (in the order the blocks were rejected). */
  method ValidateWithValidators<T(==)>(a: array<T>, vs: seq<Validator<T>>, name: T -> string)
    returns (validEnd: nat, errors: seq<TopicOpResult>)
    modifies a
    ensures validEnd <= a.Length
    ensures multiset(a[..]) == multiset(old(a[..]))
    ensures forall i :: 0 <= i < validEnd ==> FirstFailing(vs, a[i]).None?
    ensures forall i :: validEnd <= i < a.Length ==> FirstFailing(vs, a[i]).Some?
    ensures multiset(errors) == multiset(Rejections(vs, name, a[validEnd..]))
  {
    validEnd, errors := a.Length, [];
    assert a[a.Length..] == [];
    var k := 0;
    while k < |vs|
      invariant Validated(a[..], vs, name, k, validEnd, errors, multiset(old(a[..])))
    {
      ghost var s0 := a[..];
      var validEnd', block;
      validEnd', block := ValidateRequestsRange(a, validEnd, name, vs[k].code, vs[k].message, vs[k].isValid);
      ValidatedStep(s0, a[..], vs, name, k, validEnd, validEnd', errors, multiset(old(a[..])));
      validEnd, errors, k := validEnd', errors + block, k + 1;
    }
    forall i | 0 <= i < validEnd ensures FirstFailing(vs, a[i]).None? {
      assert PassesFirst(vs, |vs|, a[i]);
    }
  }

  // ---------------------------------------------------------------------------
  // Duplicates.

  /** How many items of `s` name topic `t`. */
  function Occurrences<T>(s: seq<T>, name: T -> string, t: string): nat
  {
    if s == [] then 0
    else Occurrences(s[..|s| - 1], name, t) + (if name(s[|s| - 1]) == t then 1 else 0)
  }

  lemma {:induction false} OccurrencesOfMember<T>(s: seq<T>, name: T -> string, x: T)
    requires x in s
    ensures Occurrences(s, name, name(x)) >= 1
  {
    if s[|s| - 1] != x {
      assert x in s[..|s| - 1];
      OccurrencesOfMember(s[..|s| - 1], name, x);
    }
  }

  /** The frequency loop of validate_range_duplicates: one entry per topic
    * present, holding its number of items. */
  method CountTopics<T>(s: seq<T>, name: T -> string) returns (freq: map<string, nat>)
    ensures FrequencyOf(freq, s, name)
  {
    freq := map[];
    for i := 0 to |s|
      invariant FrequencyOf(freq, s[..i], name)
    {
      assert s[..i + 1][..i] == s[..i];
      var t := name(s[i]);
      freq := freq[t := if t in freq then freq[t] + 1 else 1];
    }
    assert s[..|s|] == s;
  }

  /** `freq` holds one entry per topic present in `s`: its number of
    * items. */
  ghost predicate FrequencyOf<T>(freq: map<string, nat>, s: seq<T>, name: T -> string)
  {
    (forall t :: t in freq <==> Occurrences(s, name, t) > 0) &&
    (forall t :: t in freq ==> freq[t] == Occurrences(s, name, t))
  }

  /** validate_range_duplicates: every item whose topic occurs more than once
    * in the range is rejected (all of its occurrences) with
    * `invalid_request` and "Duplicated topic"; the items whose topic is
    * unique stay valid. */
  method ValidateRangeDuplicates<T>(a: array<T>, name: T -> string)
    returns (validEnd: nat, errors: seq<TopicOpResult>)
    modifies a
    ensures validEnd <= a.Length
    ensures multiset(a[..]) == multiset(old(a[..]))
    ensures SplitByUniqueness(old(a[..]), a[..], name, validEnd)
    ensures errors == GenerateErrors(a[validEnd..], name, 42, "Duplicated topic")
  {
    ghost var before := a[..];
    var freq := CountTopics(a[..], name);
    var p := x => name(x) in freq && freq[name(x)] == 1;
    validEnd, errors := ValidateRequestsRange(a, a.Length, name, InvalidRequest, "Duplicated topic", p);
    ghost var after := a[..];
    assert after == a[..a.Length] && before == before[..a.Length];
    assert a[validEnd..a.Length] == after[validEnd..];
    UniqueByFrequency(before, after, name, freq, p, validEnd);
  }

  /** `s[..validEnd]` holds the items whose topic occurs once in `orig`,
    * `s[validEnd..]` those whose topic occurs more than once. */
  predicate SplitByUniqueness<T>(orig: seq<T>, s: seq<T>, name: T -> string, validEnd: nat)
  {
    validEnd <= |s| &&
    (forall i :: 0 <= i < validEnd ==> Occurrences(orig, name, name(s[i])) == 1) &&
    (forall i :: validEnd <= i < |s| ==> Occurrences(orig, name, name(s[i])) > 1)
  }

  /** After partitioning on "the frequency of its topic is 1", the items
    * before the split point are exactly those whose topic occurs once. */
  lemma UniqueByFrequency<T>(before: seq<T>, after: seq<T>, name: T -> string,
                             freq: map<string, nat>, p: T -> bool, validEnd: nat)
    requires validEnd <= |after| && multiset(after) == multiset(before)
    requires forall x :: p(x) <==> name(x) in freq && freq[name(x)] == 1
    requires FrequencyOf(freq, before, name)
    requires forall i :: 0 <= i < validEnd ==> p(after[i])
    requires forall i :: validEnd <= i < |after| ==> !p(after[i])
    ensures SplitByUniqueness(before, after, name, validEnd)
  {
    forall i | 0 <= i < |after| ensures Occurrences(before, name, name(after[i])) >= 1 {
      assert after[i] in multiset(after);
      OccurrencesOfMember(before, name, after[i]);
    }
  }

  // ---------------------------------------------------------------------------
  // Conversions.

  /** append_cluster_results: one converted result per cluster result, in
    * order, after the results already present (the conversion,
    * `topic_op_result::from_cluster_topic_result`, is a parameter). */
  method AppendClusterResults<C>(clusterResults: seq<C>, kafkaResults: seq<TopicOpResult>,
                                 fromCluster: C -> TopicOpResult)
    returns (r: seq<TopicOpResult>)
    ensures |r| == |kafkaResults| + |clusterResults|
    ensures r[..|kafkaResults|] == kafkaResults
    ensures forall i :: 0 <= i < |clusterResults| ==> r[|kafkaResults| + i] == fromCluster(clusterResults[i])
  {
    r := kafkaResults;
    var i := 0;
    while i < |clusterResults|
      invariant 0 <= i <= |clusterResults|
      invariant |r| == |kafkaResults| + i && r[..|kafkaResults|] == kafkaResults
      invariant forall j :: 0 <= j < i ==> r[|kafkaResults| + j] == fromCluster(clusterResults[j])
    {
      r := r + [fromCluster(clusterResults[i])];
      i := i + 1;
    }
  }

  /** to_cluster_type: each item's cluster form, same length and order. */
  method ToClusterType<T, C>(items: seq<T>, toCluster: T -> C) returns (r: seq<C>)
    ensures |r| == |items|
    ensures forall i :: 0 <= i < |items| ==> r[i] == toCluster(items[i])
  {
    r := [];
    var i := 0;
    while i < |items|
      invariant 0 <= i <= |items| && |r| == i
      invariant forall j :: 0 <= j < i ==> r[j] == toCluster(items[j])
    {
      r := r + [toCluster(items[i])];
      i := i + 1;
    }
  }
}
