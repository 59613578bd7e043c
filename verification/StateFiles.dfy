/** The state file: a json dictionary that is read again before every access and
    written back after every change, so that several objects can share it. */
module StateFiles {
  import opened Sequences
  import opened Timestamps
  import opened Wrappers

  datatype Json =
    | JNull
    | JBool(flag: bool)
    | JInt(number: int)
    | JText(text: string)
    | JStamps(stamps: seq<real>)
    | JPairs(pairs: seq<(real, int)>)

  /** Whether Python takes the value for true. */
  predicate Truthy(v: Json) {
    match v
    case JNull => false
    case JBool(b) => b
    case JInt(i) => i != 0
    case JText(t) => t != ""
    case JStamps(xs) => xs != []
    case JPairs(xs) => xs != []
  }

  function Number(p: (real, int)): int { p.1 }

  function CountOf(content: map<string, Json>, k: string): Option<Json> {
    if k in content && Truthy(content[k]) then
      match content[k]
      case JStamps(xs) => Some(JInt(|xs|))
      case JPairs(xs) => Some(JInt(SumInt(Map(xs, Number))))
      case v => Some(v)
    else None
  }

  /** What counting a key of the file gives: the length of a list of timestamps, the sum of
      the numbers that come with them, any other value as it is, and nothing for what is
      missing, false, zero or empty. */
  lemma CountExactly(content: map<string, Json>, k: string)
    ensures k !in content ==> CountOf(content, k) == None
    ensures k in content ==>
              CountOf(content, k)
              == match content[k]
                 case JNull => None
                 case JBool(b) => if b then Some(JBool(true)) else None
                 case JInt(i) => if i == 0 then None else Some(JInt(i))
                 case JText(t) => if |t| == 0 then None else Some(JText(t))
                 case JStamps(xs) => if |xs| == 0 then None else Some(JInt(|xs|))
                 case JPairs(xs) => if |xs| == 0 then None else Some(JInt(SumInt(Map(xs, Number))))
  {
  }

  /** The file on disk. */
  class StateFile {
    var content: map<string, Json>

    constructor ()
      ensures content == map[]
    {
      content := map[];
    }
  }

  class State {
    const file: StateFile
    var cache: map<string, Json>

    constructor (file: StateFile)
      ensures this.file == file && cache == file.content
    {
      this.file := file;
      cache := file.content;
    }

    method Get(k: string, default: Json) returns (v: Json)
      modifies this
      ensures cache == file.content
      ensures v == if k in file.content then file.content[k] else default
    {
      cache := file.content;
      v := if k in cache then cache[k] else default;
    }

    method Contains(k: string) returns (found: bool)
      modifies this
      ensures cache == file.content && found == (k in file.content)
    {
      cache := file.content;
      found := k in cache;
    }

    /** Keys that other objects wrote since the last access survive. */
    method SetItem(k: string, v: Json)
      modifies this, file
      ensures file.content == old(file.content)[k := v] && cache == file.content
    {
      cache := file.content;
      cache := cache[k := v];
      file.content := cache;
    }

    /** False stands for the KeyError of a missing key, which leaves the file alone. */
    method DelItem(k: string) returns (found: bool)
      modifies this, file
      ensures found == (k in old(file.content))
      ensures file.content == old(file.content) - {k} && cache == file.content
    {
      cache := file.content;
      found := k in cache;
      if found {
        cache := cache - {k};
        file.content := cache;
      } else {
        assert cache - {k} == cache;
      }
    }

    method Count(k: string) returns (n: Option<Json>)
      modifies this
      ensures cache == file.content && n == CountOf(file.content, k)
    {
      var v := Get(k, JNull);
      if !Truthy(v) { return None; }
      match v
      case JStamps(xs) => n := Some(JInt(|xs|));
      case JPairs(xs) => n := Some(JInt(SumInt(Map(xs, Number))));
      case _ => n := Some(v);
    }
  }

  function Stamp(p: (real, int)): real { p.0 }

  /** The timestamp an update adds when it is given none: now, without microseconds. */
  function StampOr(dt: Option<real>, now: real): real {
    if dt.Some? then dt.value else now.Floor as real
  }

  lemma StampIsWholeSecond(dt: Option<real>, now: real)
    ensures var s := StampOr(dt, now);
            if dt.Some? then s == dt.value else s == s.Floor as real && s <= now < s + 1.0
  {
  }

  class DateTimeSeq {
    const maxlen: Option<nat>
    const state: State?
    const key: string
    var items: seq<real>
    ghost const initial: seq<real>
    ghost var log: seq<Added<real>>

    ghost predicate Valid()
      reads this
    {
      items == Window(initial, maxlen, log, Itself)
    }

    constructor (iterable: seq<real>, maxlen: Option<nat>, state: State?, key: string)
      ensures Valid() && log == [] && initial == iterable
      ensures this.maxlen == maxlen && this.state == state && this.key == key
    {
      this.maxlen, this.state, this.key := maxlen, state, key;
      items := LastN(iterable, maxlen);
      initial, log := iterable, [];
    }

    method Update(dt: Option<real>, now: real) returns (r: seq<real>)
      requires Valid()
      modifies this, if state == null then {} else {state, state.file}
      ensures Valid() && log == old(log) + [Added(now, StampOr(dt, now))]
      ensures r == items == Updated(old(items), maxlen, now, StampOr(dt, now), Itself)
      ensures state != null ==>
                state.file.content == if key == "" then old(state.file.content)
                                      else old(state.file.content)[key := JStamps(items)]
    {
      items := DropOld(items, now, Itself);
      items := LastN(items + [StampOr(dt, now)], maxlen);
      log := log + [Added(now, StampOr(dt, now))];
      if state != null && key != "" { state.SetItem(key, JStamps(items)); }
      r := items;
    }

    function Len(): nat
      reads this
    {
      |items|
    }
  }

  class DateTimeIntSeq {
    const maxlen: Option<nat>
    const state: State?
    const key: string
    var items: seq<(real, int)>
    ghost const initial: seq<(real, int)>
    ghost var log: seq<Added<(real, int)>>

    ghost predicate Valid()
      reads this
    {
      items == Window(initial, maxlen, log, Stamp)
    }

    constructor (iterable: seq<(real, int)>, maxlen: Option<nat>, state: State?, key: string)
      ensures Valid() && log == [] && initial == iterable
      ensures this.maxlen == maxlen && this.state == state && this.key == key
    {
      this.maxlen, this.state, this.key := maxlen, state, key;
      items := LastN(iterable, maxlen);
      initial, log := iterable, [];
    }

    method Update(dt: Option<real>, number: int, now: real) returns (r: seq<(real, int)>)
      requires Valid()
      modifies this, if state == null then {} else {state, state.file}
      ensures Valid() && log == old(log) + [Added(now, (StampOr(dt, now), number))]
      ensures r == items == Updated(old(items), maxlen, now, (StampOr(dt, now), number), Stamp)
      ensures state != null ==>
                state.file.content == if key == "" then old(state.file.content)
                                      else old(state.file.content)[key := JPairs(items)]
    {
      items := DropOld(items, now, Stamp);
      items := LastN(items + [(StampOr(dt, now), number)], maxlen);
      log := log + [Added(now, (StampOr(dt, now), number))];
      if state != null && key != "" { state.SetItem(key, JPairs(items)); }
      r := items;
    }

    function Len(): int
      reads this
    {
      SumInt(Map(items, Number))
    }
  }

  /** Counting what an update wrote gives the length of the window, unless the window
      can hold nothing: then the count is missing instead of zero. */
  lemma CountIsLength(content: map<string, Json>, key: string, maxlen: Option<nat>,
                      before: seq<real>, now: real, entry: real)
    ensures var w := Updated(before, maxlen, now, entry, Itself);
            CountOf(content[key := JStamps(w)], key) == Some(JInt(|w|)) <==> maxlen != Some(0)
  {
  }

  lemma CountIsSum(content: map<string, Json>, key: string, maxlen: Option<nat>,
                   before: seq<(real, int)>, now: real, entry: (real, int))
    ensures var w := Updated(before, maxlen, now, entry, Stamp);
            CountOf(content[key := JPairs(w)], key) == Some(JInt(SumInt(Map(w, Number))))
            <==> maxlen != Some(0)
  {
  }
}
