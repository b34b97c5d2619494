/** The glossary: a fixed table of terms and its case-insensitive search. */
module Glossary {

  datatype Category = Beam | Flink | General

  datatype Term = Term(id: string, term: string, definition: string, category: Category)

  /** The glossary table, in display order. */
  const Terms: seq<Term> := [
    Term("pcollection", "PCollection", "The core abstraction in Beam: an immutable, distributed dataset. It can be bounded (batch) or unbounded (streaming).", Beam),
    Term("pardo", "ParDo", "The core parallel processing operation in Beam. Similar to \"Map\", but more flexible: one input can produce 0, 1, or many outputs.", Beam),
    Term("watermark", "Watermark", "A timestamp representing the progress of event time. \"No events older than T will arrive\". Triggers windows.", Beam),
    Term("backpressure", "Backpressure", "When a downstream operator is too slow, buffers fill up, forcing upstream operators to slow down. This propagates to the source.", General),
    Term("checkpoint", "Checkpoint", "A periodic, consistent snapshot of the entire distributed job state, used for fault tolerance and recovery.", Flink),
    Term("state", "State", "Information remembered across events (e.g., a counter, a buffer). Managed by the runner and fault-tolerant.", Beam),
    Term("taskmanager", "TaskManager", "The worker process in Flink. It executes tasks in one or more slots.", Flink),
    Term("slot", "Slot", "A slice of resources (CPU/Memory) in a TaskManager. Determines the maximum parallelism per TaskManager.", Flink),
    Term("chaining", "Chaining", "Optimization where multiple operators are fused into a single thread to reduce serialization and network overhead.", Flink),
    Term("sideinput", "Side Input", "An additional input to a ParDo, usually smaller and slowly changing (e.g., a lookup table broadcast to all workers).", Beam),
    Term("akka", "Akka Framesize", "The maximum size of a message sent between Flink components (default 10MB). Large records can crash the job if they exceed this.", Flink),
    Term("shuffle", "Shuffle", "Redistributing data across the cluster, typically for GroupByKey operations. Data is partitioned by key.", General),
    Term("partition", "Partition", "A subset of the data stream processed independently. Parallelism implies multiple partitions.", General)
  ]

  // ---------------------------------------------------------------------
  // Lower case and substring search

  /** Lower-cases an ASCII capital; every other character is kept. */
  function Lower(c: char): (l: char)
    ensures 'A' <= c <= 'Z' ==> 'a' <= l <= 'z' && l as int - c as int == 32
    ensures !('A' <= c <= 'Z') ==> l == c
    ensures !('A' <= l <= 'Z')
  {
    if 'A' <= c <= 'Z' then (c as int + 32) as char else c
  }

  function LowerStr(s: string): (r: string)
    ensures |r| == |s| && forall i :: 0 <= i < |s| ==> r[i] == Lower(s[i])
  {
    seq(|s|, i requires 0 <= i < |s| => Lower(s[i]))
  }

  /** Lower-casing twice is lower-casing once. */
  lemma LowerStrIdempotent(s: string)
    ensures LowerStr(LowerStr(s)) == LowerStr(s)
  {
  }

  /** `needle` is a prefix of `hay`. */
  predicate IsPrefix(needle: string, hay: string) {
    |needle| <= |hay| && hay[..|needle|] == needle
  }

  /** `hay` contains `needle`, searched from the left, as `includes` does:
      the empty needle is found everywhere, and a found needle is no longer
      than `hay`. */
  predicate Contains(hay: string, needle: string)
    ensures Contains(hay, needle) ==> |needle| <= |hay|
    ensures needle == [] ==> Contains(hay, needle)
    decreases |hay|
  {
    IsPrefix(needle, hay) || (|hay| > 0 && Contains(hay[1..], needle))
  }

  /** `needle` occurs in `hay` at `offset`. */
  predicate OccursAt(hay: string, needle: string, offset: nat) {
    offset + |needle| <= |hay| && hay[offset..offset + |needle|] == needle
  }

  /** A needle found by the search occurs at some offset. */
  lemma {:induction false} ContainsOccurs(hay: string, needle: string) returns (offset: nat)
    requires Contains(hay, needle)
    ensures OccursAt(hay, needle, offset)
    decreases |hay|
  {
    if IsPrefix(needle, hay) {
      offset := 0;
    } else {
      var o := ContainsOccurs(hay[1..], needle);
      assert hay[o + 1..o + 1 + |needle|] == hay[1..][o..o + |needle|];
      offset := o + 1;
    }
  }

  /** A needle that occurs at any offset is found by the search. */
  lemma {:induction false} OccursContains(hay: string, needle: string, offset: nat)
    requires OccursAt(hay, needle, offset)
    ensures Contains(hay, needle)
    decreases offset
  {
    if offset > 0 {
      assert hay[1..][offset - 1..offset - 1 + |needle|] == hay[offset..offset + |needle|];
      OccursContains(hay[1..], needle, offset - 1);
    }
  }

  /** The search agrees with "the needle occurs at some offset", in both directions. */
  lemma ContainsIffOccurs(hay: string, needle: string)
    ensures Contains(hay, needle) <==> exists offset: nat :: OccursAt(hay, needle, offset)
  {
    if Contains(hay, needle) {
      var o := ContainsOccurs(hay, needle);
    }
    forall offset: nat | OccursAt(hay, needle, offset) ensures Contains(hay, needle) {
      OccursContains(hay, needle, offset);
    }
  }

  // ---------------------------------------------------------------------
  // The filter

  /** A term is listed for `query` when its lower-cased name contains the
      lower-cased query. */
  predicate Matches(t: Term, query: string)
    ensures Matches(t, query) <==> exists offset: nat :: OccursAt(LowerStr(t.term), LowerStr(query), offset)
  {
    ContainsIffOccurs(LowerStr(t.term), LowerStr(query));
    Contains(LowerStr(t.term), LowerStr(query))
  }

  /** The list of terms shown for the text in the search box: no longer
      than the table, and every entry matches. */
  function Filter(table: seq<Term>, query: string): (r: seq<Term>)
    ensures |r| <= |table|
    ensures forall i :: 0 <= i < |r| ==> Matches(r[i], query)
  {
    if table == [] then []
    else (if Matches(table[0], query) then [table[0]] else []) + Filter(table[1..], query)
  }

  /** `sub` is `s` with some entries left out, the others kept in order. */
  predicate Subsequence<T(==)>(sub: seq<T>, s: seq<T>)
    decreases |s|
  {
    if sub == [] then true
    else if s == [] then false
    else (sub[0] == s[0] && Subsequence(sub[1..], s[1..])) || Subsequence(sub, s[1..])
  }

  /** Results keep the table's relative order. */
  lemma {:induction false} FilterKeepsOrder(table: seq<Term>, query: string)
    ensures Subsequence(Filter(table, query), table)
  {
    if table != [] {
      FilterKeepsOrder(table[1..], query);
      var f := Filter(table, query);
      if Matches(table[0], query) {
        assert f[0] == table[0] && f[1..] == Filter(table[1..], query);
      } else {
        assert f == Filter(table[1..], query);
      }
    }
  }

  /** Soundness (every result is a table entry that matches) and completeness
      (every matching table entry is a result). */
  lemma {:induction false} FilterSoundComplete(table: seq<Term>, query: string)
    ensures forall t :: t in Filter(table, query) <==> t in table && Matches(t, query)
  {
    if table != [] {
      FilterSoundComplete(table[1..], query);
      assert table == [table[0]] + table[1..];
    }
  }

  /** An empty search box shows the whole table. */
  lemma {:induction false} FilterEmptyQuery(table: seq<Term>)
    ensures Filter(table, "") == table
  {
    if table != [] {
      assert LowerStr("") == "";
      FilterEmptyQuery(table[1..]);
    }
  }

  /** Two queries that differ only in letter case. */
  predicate SameUpToCase(a: string, b: string) {
    |a| == |b| && forall i :: 0 <= i < |a| ==> Lower(a[i]) == Lower(b[i])
  }

  /** The search is case-insensitive. */
  lemma {:induction false} FilterCaseInsensitive(table: seq<Term>, a: string, b: string)
    requires SameUpToCase(a, b)
    ensures Filter(table, a) == Filter(table, b)
  {
    assert LowerStr(a) == LowerStr(b);
    if table != [] {
      FilterCaseInsensitive(table[1..], a, b);
    }
  }

  /** In particular, searching for the lower-cased query changes nothing. */
  lemma FilterLowerQuery(table: seq<Term>, query: string)
    ensures Filter(table, LowerStr(query)) == Filter(table, query)
  {
    FilterCaseInsensitive(table, LowerStr(query), query);
  }

  // ---------------------------------------------------------------------
  // Ids

  predicate DistinctIds(s: seq<Term>) {
    forall i, j :: 0 <= i < j < |s| ==> s[i].id != s[j].id
  }

  /** The table's ids are pairwise distinct. */
  lemma TermIdsDistinct()
    ensures DistinctIds(Terms)
  {
  }

  lemma {:induction false} SubsequenceDistinct(sub: seq<Term>, s: seq<Term>)
    requires Subsequence(sub, s) && DistinctIds(s)
    ensures DistinctIds(sub)
    decreases |s|
  {
    if sub != [] && s != [] {
      if sub[0] == s[0] && Subsequence(sub[1..], s[1..]) {
        SubsequenceDistinct(sub[1..], s[1..]);
        SubsequenceMembers(sub[1..], s[1..]);
        forall j | 0 < j < |sub| ensures sub[0].id != sub[j].id {
          assert sub[j] == sub[1..][j - 1] && sub[j] in sub[1..];
          var k :| 0 <= k < |s[1..]| && s[1..][k] == sub[j];
          assert s[k + 1] == sub[j];
        }
      } else {
        SubsequenceDistinct(sub, s[1..]);
      }
    }
  }

  lemma {:induction false} SubsequenceMembers<T>(sub: seq<T>, s: seq<T>)
    requires Subsequence(sub, s)
    ensures forall x :: x in sub ==> x in s
    decreases |s|
  {
    if sub != [] && s != [] {
      if sub[0] == s[0] && Subsequence(sub[1..], s[1..]) {
        SubsequenceMembers(sub[1..], s[1..]);
        assert sub == [sub[0]] + sub[1..];
      } else {
        SubsequenceMembers(sub, s[1..]);
      }
    }
  }

  /** Whatever the query, the listed terms have pairwise distinct ids, so the
      selection highlight (equal id) marks at most one entry. */
  lemma FilteredIdsDistinct(query: string)
    ensures DistinctIds(Filter(Terms, query))
  {
    TermIdsDistinct();
    FilterKeepsOrder(Terms, query);
    SubsequenceDistinct(Filter(Terms, query), Terms);
  }
}
