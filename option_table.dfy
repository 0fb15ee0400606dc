/** The client's option table and the option set it hands to curl for one
    transfer: the defaults merged under the caller's options, reads through
    `??`, batches of writes, and the options derived from the request. */
module OptionTable {
  import opened Curl
  import opened Messages
  import opened HeaderCodec

  type OptionMap = map<int, OptValue>

  /** PHP's array union `a + b`: every key of `a` keeps its value from `a`;
      keys only `b` has are taken from `b`. */
  function Union(a: OptionMap, b: OptionMap): (r: OptionMap)
    ensures r.Keys == a.Keys + b.Keys
    ensures forall k :: k in a ==> r[k] == a[k]
    ensures forall k :: k in b && k !in a ==> r[k] == b[k]
  {
    b + a
  }

  /** The two options every client starts from. */
  const DefaultOptions: OptionMap := map[OptReturnTransfer := Bool(true), OptHeader := Bool(true)]

  /** `$options + self::DEFAULT_OPTIONS`: the caller's options, with
      RETURNTRANSFER and HEADER set to true where the caller gave no value. */
  function WithDefaults(caller: OptionMap): (r: OptionMap)
    ensures r.Keys == caller.Keys + {OptReturnTransfer, OptHeader}
    ensures forall k :: k in caller ==> r[k] == caller[k]
    ensures OptReturnTransfer !in caller ==> r[OptReturnTransfer] == Bool(true)
    ensures OptHeader !in caller ==> r[OptHeader] == Bool(true)
  {
    Union(caller, DefaultOptions)
  }

  /** `$options[$k] ?? null`: the stored value, or null when the key is
      missing or holds null. */
  function Lookup(m: OptionMap, k: int): OptValue {
    if k in m && m[k] != Null then m[k] else Null
  }

  /** Reading a key just written gives the written value, null included, and
      every other key reads as before; writing the same pair twice changes
      nothing more than writing it once. */
  lemma LookupAfterWrite(m: OptionMap, k: int, v: OptValue, other: int)
    ensures Lookup(m[k := v], k) == v
    ensures other != k ==> Lookup(m[k := v], other) == Lookup(m, other)
    ensures m[k := v][k := v] == m[k := v]
  {
  }

  /** The table after `addOption` has been applied to each entry in turn. */
  function AfterAddOptions(m: OptionMap, entries: seq<(int, OptValue)>): OptionMap {
    if entries == [] then m
    else
      var last := entries[|entries| - 1];
      AfterAddOptions(m, entries[..|entries| - 1])[last.0 := last.1]
  }

  /** The index of the last entry for key `k`, or -1 if there is none. */
  function LastEntryFor(entries: seq<(int, OptValue)>, k: int): (i: int)
    ensures -1 <= i < |entries|
    ensures i >= 0 ==> entries[i].0 == k
    ensures forall j :: i < j < |entries| ==> entries[j].0 != k
  {
    if entries == [] then -1
    else if entries[|entries| - 1].0 == k then |entries| - 1
    else LastEntryFor(entries[..|entries| - 1], k)
  }

  /** After a batch, a key written by the batch holds the value of its LAST
      entry; every other key is exactly as it was. */
  lemma {:induction false} AfterAddOptionsAt(m: OptionMap, entries: seq<(int, OptValue)>, k: int)
    ensures LastEntryFor(entries, k) >= 0 ==>
      k in AfterAddOptions(m, entries) && AfterAddOptions(m, entries)[k] == entries[LastEntryFor(entries, k)].1
    ensures LastEntryFor(entries, k) < 0 ==>
      (k in AfterAddOptions(m, entries) <==> k in m)
      && (k in m ==> AfterAddOptions(m, entries)[k] == m[k])
    decreases |entries|
  {
    if entries != [] {
      var init := entries[..|entries| - 1];
      AfterAddOptionsAt(m, init, k);
      var i := LastEntryFor(init, k);
      if i >= 0 {
        assert init[i] == entries[i];
      }
    }
  }

  /** Applying the same batch twice gives the table applying it once gives. */
  lemma AfterAddOptionsIdempotent(m: OptionMap, entries: seq<(int, OptValue)>)
    ensures AfterAddOptions(AfterAddOptions(m, entries), entries) == AfterAddOptions(m, entries)
  {
    var once := AfterAddOptions(m, entries);
    var twice := AfterAddOptions(once, entries);
    forall k ensures (k in twice <==> k in once) && (k in once ==> twice[k] == once[k]) {
      AfterAddOptionsAt(m, entries, k);
      AfterAddOptionsAt(once, entries, k);
    }
  }

  /** Two batches in a row act as their concatenation. */
  lemma {:induction false} AfterAddOptionsAppend(m: OptionMap, first: seq<(int, OptValue)>, second: seq<(int, OptValue)>)
    ensures AfterAddOptions(AfterAddOptions(m, first), second) == AfterAddOptions(m, first + second)
    decreases |second|
  {
    if second == [] {
      assert first + second == first;
    } else {
      AfterAddOptionsAppend(m, first, second[..|second| - 1]);
      assert (first + second)[..|first + second| - 1] == first + second[..|second| - 1];
    }
  }

  /** The option ids that `curlInit` always derives from the request. */
  const AlwaysDerived: set<int> := {OptUrl, OptCustomRequest, OptHttpHeader}

  /** The options `curlInit` derives from the request: URL, method and header
      list, plus POST and POSTFIELDS when the body is not empty. */
  function DerivedOptions(request: Request): (r: OptionMap)
    ensures r.Keys == AlwaysDerived + (if |request.body| > 0 then {OptPost, OptPostFields} else {})
    ensures r[OptUrl] == Str(request.uri)
    ensures r[OptCustomRequest] == Str(request.verb)
    ensures r[OptHttpHeader] == StrList(SerializedHeaders(request.headers))
    ensures |request.body| > 0 ==> r[OptPost] == Bool(true) && r[OptPostFields] == Str(request.body)
  {
    var base := map[
      OptUrl := Str(request.uri),
      OptCustomRequest := Str(request.verb),
      OptHttpHeader := StrList(SerializedHeaders(request.headers))];
    if |request.body| > 0 then base[OptPost := Bool(true)][OptPostFields := Str(request.body)]
    else base
  }

  /** `$_options + $this->options`, the option set handed to curl. The derived
      URL, method and header list always win; POST and POSTFIELDS win exactly
      when the body is not empty; every other option is the caller's. */
  function TransferOptions(request: Request, options: OptionMap): (r: OptionMap)
    ensures r.Keys == options.Keys + AlwaysDerived + (if |request.body| > 0 then {OptPost, OptPostFields} else {})
    ensures r[OptUrl] == Str(request.uri)
    ensures r[OptCustomRequest] == Str(request.verb)
    ensures r[OptHttpHeader] == StrList(SerializedHeaders(request.headers))
    ensures |request.body| > 0 ==> r[OptPost] == Bool(true) && r[OptPostFields] == Str(request.body)
    ensures forall k :: k in options && k !in AlwaysDerived && (|request.body| > 0 ==> k != OptPost && k != OptPostFields) ==>
              r[k] == options[k]
  {
    Union(DerivedOptions(request), options)
  }
}
