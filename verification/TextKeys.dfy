/** key=value text of login and text PDUs (section 5.1 of RFC 3720). */
module TextKeys {
  import opened Options

  const NUL := '\0'
  const EQ := '='

  datatype Pair = Pair(key: string, value: string)

  // ---- printing ----

  function Entry(p: Pair): string
  {
    p.key + [EQ] + p.value + [NUL]
  }

  function Print(ps: seq<Pair>): string
  {
    if ps == [] then [] else Entry(ps[0]) + Print(ps[1..])
  }

  /** The response text of a connection: rsp_buffer up to rsp.datasize, and rsp_buffer_size. */
  class Output {
    var data: string
    var size: nat

    ghost predicate Valid()
      reads this
    {
      |data| <= size
    }

    constructor (size: nat)
      ensures Valid() && data == [] && this.size == size
    {
      data, this.size := [], size;
    }

    /** text_key_add: only a text response may grow the buffer; otherwise an entry that does not fit is dropped. */
    method KeyAdd(p: Pair, maxLen: nat, isText: bool)
      requires Valid() && (!isText ==> maxLen <= size)
      modifies this
      ensures Valid() && size >= old(size) && (!isText ==> size == old(size))
      ensures data == if isText || |old(data)| + |Entry(p)| <= maxLen then old(data) + Entry(p) else old(data)
    {
      var len := |p.key| + |p.value| + 2;
      if |data| + len > maxLen && !isText {
        return;
      }
      if |data| + len > size {
        size := |data| + len;
      }
      data := data + p.key;
      data := data + [EQ];
      data := data + p.value + [NUL];
    }

    /** A response built entry by entry: nothing is dropped when all of it fits. */
    method AddAll(ps: seq<Pair>, maxLen: nat, isText: bool)
      requires Valid() && (!isText ==> maxLen <= size) && (isText || |data| + |Print(ps)| <= maxLen)
      modifies this
      ensures Valid() && data == old(data) + Print(ps)
    {
      var i := 0;
      assert ps[0..] == ps;
      while i < |ps|
        invariant Valid() && 0 <= i <= |ps| && (!isText ==> maxLen <= size)
        invariant data + Print(ps[i..]) == old(data) + Print(ps)
      {
        assert Print(ps[i..]) == Entry(ps[i]) + Print(ps[i..][1..]) && ps[i..][1..] == ps[i + 1..];
        assert |data| + |Print(ps[i..])| == |old(data) + Print(ps)|;
        ghost var before := data;
        KeyAdd(ps[i], maxLen, isText);
        assert data + Print(ps[i + 1..]) == before + Print(ps[i..]);
        i := i + 1;
      }
    }
  }

  // ---- parsing ----

  /** The index of the first c in d, or |d|. */
  function Find(d: string, c: char): (i: nat)
    ensures i <= |d|
  {
    if d == [] || d[0] == c then 0 else 1 + Find(d[1..], c)
  }

  predicate FirstAt(d: string, c: char, i: nat)
  {
    i <= |d| && (i < |d| ==> d[i] == c) && forall k | 0 <= k < i :: d[k] != c
  }

  lemma {:induction false} FindIs(d: string, c: char, i: nat)
    ensures Find(d, c) == i <==> FirstAt(d, c, i)
  {
    if d != [] && d[0] != c {
      if i > 0 {
        FindIs(d[1..], c, i - 1);
        assert FirstAt(d, c, i) ==> FirstAt(d[1..], c, i - 1);
        if FirstAt(d[1..], c, i - 1) {
          forall k | 0 <= k < i
            ensures d[k] != c
          {
            assert k > 0 ==> d[k] == d[1..][k - 1];
          }
        }
      }
    }
  }

  /** One entry and what follows it; None when the '=' or the NUL is missing. */
  function NextKey(d: string): (r: Option<(Pair, string)>)
    ensures r.Some? ==> |r.value.1| < |d|
  {
    var i := Find(d, EQ);
    if i == |d| then None
    else
      var tail := d[i + 1..];
      var j := Find(tail, NUL);
      if j == |tail| then None else Some((Pair(d[..i], tail[..j]), tail[j + 1..]))
  }

  function Parse(d: string): seq<Pair>
    decreases |d|
  {
    match NextKey(d)
    case None => []
    case Some((p, rest)) => [p] + Parse(rest)
  }

  predicate Clean(p: Pair)
  {
    EQ !in p.key && NUL !in p.value
  }

  predicate AllClean(ps: seq<Pair>)
  {
    forall i | 0 <= i < |ps| :: Clean(ps[i])
  }

  lemma NextOfEntry(p: Pair, rest: string)
    requires Clean(p)
    ensures NextKey(Entry(p) + rest) == Some((p, rest))
  {
    var d := Entry(p) + rest;
    assert d[..|p.key|] == p.key && d[|p.key|] == EQ;
    FindIs(d, EQ, |p.key|);
    var tail := d[|p.key| + 1..];
    assert tail == p.value + [NUL] + rest;
    assert tail[..|p.value|] == p.value && tail[|p.value|] == NUL && tail[|p.value| + 1..] == rest;
    FindIs(tail, NUL, |p.value|);
  }

  lemma {:induction false} CleanRoundTrip(ps: seq<Pair>)
    requires AllClean(ps)
    ensures Parse(Print(ps)) == ps
  {
    if ps != [] {
      NextOfEntry(ps[0], Print(ps[1..]));
      CleanRoundTrip(ps[1..]);
    }
  }

  lemma {:induction false} ParsedClean(d: string)
    ensures AllClean(Parse(d))
    decreases |d|
  {
    match NextKey(d)
    case None =>
    case Some((p, rest)) =>
      var i := Find(d, EQ);
      FindIs(d, EQ, i);
      FindIs(d[i + 1..], NUL, Find(d[i + 1..], NUL));
      ParsedClean(rest);
  }

  /** What was printed is parsed back exactly when no key has an '=' and no value a NUL. */
  lemma RoundTrip(ps: seq<Pair>)
    ensures Parse(Print(ps)) == ps <==> AllClean(ps)
  {
    ParsedClean(Print(ps));
    if AllClean(ps) {
      CleanRoundTrip(ps);
    }
  }

  /** The value of the first entry with this key. */
  function First(ps: seq<Pair>, key: string): Option<string>
  {
    if ps == [] then None else if ps[0].key == key then Some(ps[0].value) else First(ps[1..], key)
  }

  /** It is the value of entry i if and only if that has the key and no earlier one has, and none if no entry has. */
  lemma {:induction false} FirstMeans(ps: seq<Pair>, key: string)
    ensures First(ps, key).None? <==> forall i | 0 <= i < |ps| :: ps[i].key != key
    ensures First(ps, key).Some? ==>
      exists i | 0 <= i < |ps| :: First(ps, key).value == ps[i].value && IsFirst(ps, key, i)
  {
    if ps != [] {
      FirstMeans(ps[1..], key);
      if ps[0].key == key {
        assert IsFirst(ps, key, 0);
      } else if First(ps[1..], key).Some? {
        var i :| 0 <= i < |ps[1..]| && First(ps[1..], key).value == ps[1..][i].value && IsFirst(ps[1..], key, i);
        assert forall k | 0 < k <= i :: ps[k] == ps[1..][k - 1];
        assert IsFirst(ps, key, i + 1);
      } else {
        assert forall k | 0 < k < |ps| :: ps[k] == ps[1..][k - 1];
      }
    }
  }

  predicate IsFirst(ps: seq<Pair>, key: string, i: nat)
  {
    i < |ps| && ps[i].key == key && forall k | 0 <= k < i :: ps[k].key != key
  }

  /** Text behind the last entry that is no entry itself is ignored: it has no '=', or no NUL behind its first. */
  lemma {:induction false} TailIgnored(ps: seq<Pair>, junk: string)
    requires AllClean(ps)
    requires forall i, j | 0 <= i < j < |junk| && junk[i] == EQ :: junk[j] != NUL
    ensures Parse(Print(ps) + junk) == ps
  {
    if ps == [] {
      assert Print(ps) + junk == junk;
      var i := Find(junk, EQ);
      FindIs(junk, EQ, i);
      if i < |junk| {
        FindIs(junk[i + 1..], NUL, |junk| - i - 1);
      }
    } else {
      assert Print(ps) + junk == Entry(ps[0]) + (Print(ps[1..]) + junk);
      NextOfEntry(ps[0], Print(ps[1..]) + junk);
      TailIgnored(ps[1..], junk);
    }
  }

  // ---- the loops over the received buffer ----

  /** The scan loops of text_key_find and next_key: from lo up to the first c. */
  method Scan(s: string, lo: nat, c: char) returns (i: nat)
    requires lo <= |s|
    ensures lo <= i <= |s| && i - lo == Find(s[lo..], c)
  {
    i := lo;
    while i < |s| && s[i] != c
      invariant lo <= i <= |s| && forall k | lo <= k < i :: s[k] != c
    {
      i := i + 1;
    }
    FindIs(s[lo..], c, i - lo);
  }

  /** The entry of s[at..] whose '=' is at i and whose NUL is at j. */
  lemma NextAt(s: string, at: nat, i: nat, j: nat)
    requires at <= i < j <= |s| && i - at == Find(s[at..], EQ) && j - i - 1 == Find(s[i + 1..], NUL)
    ensures NextKey(s[at..]) == if j == |s| then None else Some((Pair(s[at..i], s[i + 1..j]), s[j + 1..]))
  {
    var d := s[at..];
    assert d[i - at + 1..] == s[i + 1..] && d[..i - at] == s[at..i];
    assert s[i + 1..][..j - i - 1] == s[i + 1..j];
    if j < |s| {
      assert s[i + 1..][j - i..] == s[j + 1..];
    }
  }

  /** The two scans of one turn of text_key_find's loop. */
  method PeekKey(data: string, at: nat) returns (r: Option<Pair>, next: nat)
    requires at <= |data|
    ensures at <= next <= |data|
    ensures match NextKey(data[at..])
      case None => r == None
      case Some((p, rest)) => r == Some(p) && rest == data[next..] && at < next
  {
    var i := Scan(data, at, EQ);
    if i == |data| {
      return None, at;
    }
    var j := Scan(data, i + 1, NUL);
    NextAt(data, at, i, j);
    if j == |data| {
      return None, at;
    }
    return Some(Pair(data[at..i], data[i + 1..j])), j + 1;
  }

  /** text_key_find: the first entry with the key, the data left alone */
  method KeyFind(data: string, key: string) returns (r: Option<string>)
    ensures r == First(Parse(data), key)
  {
    var at := 0;
    assert data[0..] == data;
    while true
      invariant at <= |data|
      invariant First(Parse(data), key) == First(Parse(data[at..]), key)
      decreases |data| - at
    {
      var entry, next := PeekKey(data, at);
      if entry.None? {
        return None;
      }
      assert Parse(data[at..]) == [entry.value] + Parse(data[next..]);
      if entry.value.key == key {
        return Some(entry.value.value);
      }
      at := next;
    }
  }

  /** next_key: the next entry from `at`; the '=' it stops at is overwritten with a NUL. */
  method TakeKey(buf: array<char>, at: nat) returns (r: Option<Pair>, next: nat)
    requires at <= buf.Length
    modifies buf
    ensures at <= next <= buf.Length && buf[next..] == old(buf[next..])
    ensures match NextKey(old(buf[at..]))
      case None => r == None
      case Some((p, rest)) => r == Some(p) && rest == buf[next..] && at < next
  {
    ghost var s := buf[..];
    var i := Scan(buf[..], at, EQ);
    if i == buf.Length {
      return None, i;
    }
    var key := buf[at..i];
    assert s[at..i] == key;
    buf[i] := NUL;
    assert buf[i + 1..] == s[i + 1..];
    var j := Scan(buf[..], i + 1, NUL);
    assert buf[..][i + 1..] == s[i + 1..];
    assert s[at..] == old(buf[at..]);
    NextAt(s, at, i, j);
    if j == buf.Length {
      return None, j;
    }
    assert buf[i + 1..j] == s[i + 1..j] && buf[j + 1..] == s[j + 1..] == old(buf[j + 1..]);
    return Some(Pair(key, buf[i + 1..j])), j + 1;
  }

  /** The loop of the text scanners: every entry, in order, though the buffer is changed under way. */
  method TakeAll(buf: array<char>) returns (ps: seq<Pair>)
    modifies buf
    ensures ps == Parse(old(buf[..]))
  {
    ps := [];
    var at := 0;
    assert buf[0..] == buf[..];
    while true
      invariant at <= buf.Length
      invariant ps + Parse(buf[at..]) == Parse(old(buf[..]))
      decreases buf.Length - at
    {
      ghost var d := buf[at..];
      var r, next := TakeKey(buf, at);
      if r.None? {
        assert Parse(d) == [];
        return;
      }
      assert Parse(d) == [r.value] + Parse(buf[next..]);
      ps := ps + [r.value];
      at := next;
    }
  }
}

/** Text responses longer than one PDU. */
module TextResponse {
  import opened Serial

  const RESERVED_TAG: u32 := 0xffff_ffff

  /** `left`: what text_rsp_buffer and text_datasize have still to send. */
  datatype State = State(left: string, ttt: u32)

  datatype Reply = Reject | Reply(data: string, final: bool, ttt: u32)

  function NewTag(ttt: u32): u32
  {
    if Next(ttt) == RESERVED_TAG then Next(Next(ttt)) else Next(ttt)
  }

  /** A new tag is not the one before it, and not the reserved one. */
  lemma NewTagFresh(ttt: u32)
    ensures NewTag(ttt) != ttt && NewTag(ttt) != RESERVED_TAG
  {
  }

  /** A new request puts an end to the response before it: continuations with the old tag are refused, and the text sent
      is that of the new request. */
  lemma NewRequestReplaces(s: State, whole: string, other: string, max: nat)
    requires s.ttt != RESERVED_TAG
    ensures var (t, r) := Exec(s, RESERVED_TAG, whole, max);
            && Exec(t, s.ttt, other, max) == (t, Reject) && r.Reply?
            && r.data + t.left == whole && (r.final <==> |whole| <= max) && (r.final <==> r.ttt == RESERVED_TAG)
  {
    NewTagFresh(s.ttt);
  }

  /** cmnd_exec_text; `whole` is the response that a new request produces */
  function Exec(s: State, reqTtt: u32, whole: string, max: nat): (State, Reply)
  {
    if reqTtt == RESERVED_TAG then
      Send(State(whole, if |whole| > max then NewTag(s.ttt) else RESERVED_TAG), max)
    else if s.left == [] || s.ttt != reqTtt then (s, Reject)
    else Send(s, max)
  }

  function Send(s: State, max: nat): (State, Reply)
  {
    if |s.left| <= max then (State([], RESERVED_TAG), Reply(s.left, true, RESERVED_TAG))
    else (State(s.left[max..], s.ttt), Reply(s.left[..max], false, s.ttt))
  }

  class Exchange {
    var buffer: string
    var sent: nat
    var size: nat
    var ttt: u32

    ghost predicate Valid()
      reads this
    {
      sent + size == |buffer|
    }

    ghost function View(): State
      requires Valid()
      reads this
    {
      State(buffer[sent..], ttt)
    }

    constructor (tag: u32)
      ensures Valid() && View() == State([], tag)
    {
      buffer, sent, size, ttt := [], 0, 0, tag;
    }

    method ExecText(reqTtt: u32, whole: string, max: nat) returns (reply: Reply)
      requires Valid()
      modifies this
      ensures Valid() && (View(), reply) == Exec(old(View()), reqTtt, whole, max)
    {
      if reqTtt == RESERVED_TAG {
        buffer, sent, size := whole, 0, |whole|;
        assert buffer[sent..] == whole;
        if size > max {
          ttt := Next(ttt);
          if ttt == RESERVED_TAG {
            ttt := Next(ttt);
          }
        } else {
          ttt := RESERVED_TAG;
        }
      } else if size == 0 || ttt != reqTtt {
        return Reject;
      }
      ghost var left := buffer[sent..];
      assert left[..|left|] == left;
      var final := false;
      if size <= max {
        final := true;
        ttt := RESERVED_TAG;
      }
      var n := if max < size then max else size;
      var from := sent;
      sent := sent + n;
      size := size - n;
      assert buffer[from..][..n] == buffer[from..from + n] && buffer[from..][n..] == buffer[sent..];
      reply := Reply(buffer[from..from + n], final, ttt);
    }
  }

  // ---- a chain of continued requests ----

  /** The replies to a request and to the continuations that echo its tag, until one is final or is refused. */
  function Chain(s: State, reqTtt: u32, whole: string, max: nat): seq<Reply>
    requires max > 0
    decreases reqTtt == RESERVED_TAG, |s.left|
  {
    var (t, r) := Exec(s, reqTtt, whole, max);
    if r.Reject? || r.final || r.ttt == RESERVED_TAG then [r] else [r] + Chain(t, r.ttt, whole, max)
  }

  function Concat(rs: seq<Reply>): string
  {
    if rs == [] then [] else (if rs[0].Reply? then rs[0].data else []) + Concat(rs[1..])
  }

  /** Full fragments but for the last, Final on that only, one non-reserved tag on all others. */
  predicate Fragments(rs: seq<Reply>, max: nat, tag: u32)
  {
    && rs != []
    && forall i | 0 <= i < |rs| ::
      && rs[i].Reply? && |rs[i].data| <= max && (rs[i].final <==> i == |rs| - 1)
      && (rs[i].final || |rs[i].data| == max)
      && rs[i].ttt == if rs[i].final then RESERVED_TAG else tag
  }

  lemma {:induction false} Continued(s: State, whole: string, max: nat)
    requires max > 0 && s.left != [] && s.ttt != RESERVED_TAG
    ensures Fragments(Chain(s, s.ttt, whole, max), max, s.ttt)
    ensures Concat(Chain(s, s.ttt, whole, max)) == s.left
    decreases |s.left|
  {
    if |s.left| > max {
      Continued(State(s.left[max..], s.ttt), whole, max);
    }
  }

  /** A new request and its continuations deliver the whole response, whatever was left of an earlier one. */
  lemma ChainDelivers(s: State, whole: string, max: nat)
    requires max > 0
    ensures Concat(Chain(s, RESERVED_TAG, whole, max)) == whole
    ensures NewTag(s.ttt) != RESERVED_TAG && Fragments(Chain(s, RESERVED_TAG, whole, max), max, NewTag(s.ttt))
  {
    if |whole| > max {
      Continued(State(whole[max..], NewTag(s.ttt)), whole, max);
    }
  }

  // ---- continuations with wrong tags in between ----

  /** The replies to continuations with these tags. */
  function Continue(s: State, tags: seq<u32>, whole: string, max: nat): (State, seq<Reply>)
    decreases |tags|
  {
    if tags == [] then (s, [])
    else
      var (t, r) := Exec(s, tags[0], whole, max);
      var (u, rs) := Continue(t, tags[1..], whole, max);
      (u, [r] + rs)
  }

  predicate Continuations(tags: seq<u32>)
  {
    forall i | 0 <= i < |tags| :: tags[i] != RESERVED_TAG
  }

  function Accepted(rs: seq<Reply>): seq<Reply>
  {
    if rs == [] then [] else (if rs[0].Reply? then [rs[0]] else []) + Accepted(rs[1..])
  }

  function Count(tags: seq<u32>, tag: u32): nat
  {
    if tags == [] then 0 else (if tags[0] == tag then 1 else 0) + Count(tags[1..], tag)
  }

  function First(rs: seq<Reply>, n: nat): seq<Reply>
  {
    if n < |rs| then rs[..n] else rs
  }

  lemma {:induction false} NothingLeftToContinue(s: State, tags: seq<u32>, whole: string, max: nat)
    requires s.left == [] && Continuations(tags)
    ensures Continue(s, tags, whole, max).0 == s && Accepted(Continue(s, tags, whole, max).1) == []
    decreases |tags|
  {
    if tags != [] {
      NothingLeftToContinue(s, tags[1..], whole, max);
    }
  }

  /** The fragments sent are the first ones of the undisturbed chain, as many as there were right tags, and the rest is
      still there. */
  predicate Undisturbed(s: State, tags: seq<u32>, whole: string, max: nat)
    requires max > 0
  {
    var (t, rs) := Continue(s, tags, whole, max);
    && Accepted(rs) == First(Chain(s, s.ttt, whole, max), Count(tags, s.ttt))
    && Concat(Accepted(rs)) + t.left == s.left
  }

  lemma WrongTag(s: State, tags: seq<u32>, whole: string, max: nat)
    requires max > 0 && Continuations(tags) && tags != [] && tags[0] != s.ttt
    requires Undisturbed(s, tags[1..], whole, max)
    ensures Undisturbed(s, tags, whole, max)
  {
    var rs := Continue(s, tags[1..], whole, max).1;
    assert ([Reject] + rs)[1..] == rs;
  }

  lemma LastTag(s: State, tags: seq<u32>, whole: string, max: nat)
    requires max > 0 && Continuations(tags) && tags != [] && tags[0] == s.ttt && 0 < |s.left| <= max
    ensures Undisturbed(s, tags, whole, max)
  {
    var (t, r) := Exec(s, tags[0], whole, max);
    NothingLeftToContinue(t, tags[1..], whole, max);
    var rs := Continue(t, tags[1..], whole, max).1;
    assert ([r] + rs)[1..] == rs && Accepted([r] + rs) == [r];
    assert [r][1..] == [] && Concat([r]) == r.data + [];
  }

  lemma RightTag(s: State, tags: seq<u32>, whole: string, max: nat)
    requires max > 0 && Continuations(tags) && tags != [] && tags[0] == s.ttt && max < |s.left|
    requires Undisturbed(Exec(s, tags[0], whole, max).0, tags[1..], whole, max)
    ensures Undisturbed(s, tags, whole, max)
  {
    var t, r := State(s.left[max..], s.ttt), Reply(s.left[..max], false, s.ttt);
    var (u, rs) := Continue(t, tags[1..], whole, max);
    assert s.ttt != RESERVED_TAG;
    assert Exec(s, tags[0], whole, max) == (t, r);
    assert Continue(s, tags, whole, max) == (u, [r] + rs);
    assert Chain(s, s.ttt, whole, max) == [r] + Chain(t, s.ttt, whole, max);
    Prefixed(r, rs, Chain(t, s.ttt, whole, max), Count(tags[1..], s.ttt));
    Rejoin(s.left, max, Concat(Accepted(rs)), u.left);
  }

  lemma Rejoin(all: string, n: nat, b: string, c: string)
    requires n <= |all| && b + c == all[n..]
    ensures (all[..n] + b) + c == all
  {
    assert (all[..n] + b) + c == all[..n] + (b + c);
  }

  /** Wrong tags, however many and wherever, are refused and disturb nothing. */
  lemma {:induction false} WrongTagsHarmless(s: State, tags: seq<u32>, whole: string, max: nat)
    requires max > 0 && s.left != [] && s.ttt != RESERVED_TAG && Continuations(tags)
    ensures Undisturbed(s, tags, whole, max)
    decreases |tags|
  {
    if tags != [] {
      if tags[0] != s.ttt {
        WrongTagsHarmless(s, tags[1..], whole, max);
        WrongTag(s, tags, whole, max);
      } else if |s.left| <= max {
        LastTag(s, tags, whole, max);
      } else {
        WrongTagsHarmless(State(s.left[max..], s.ttt), tags[1..], whole, max);
        RightTag(s, tags, whole, max);
      }
    }
  }

  lemma Prefixed(r: Reply, rs: seq<Reply>, chain: seq<Reply>, n: nat)
    requires r.Reply? && Accepted(rs) == First(chain, n)
    ensures Accepted([r] + rs) == First([r] + chain, n + 1)
    ensures Concat(Accepted([r] + rs)) == r.data + Concat(Accepted(rs))
  {
    assert ([r] + rs)[1..] == rs && ([r] + Accepted(rs))[1..] == Accepted(rs);
  }

  lemma EnoughRightTags(t: State, tags: seq<u32>, whole: string, max: nat)
    requires max > 0 && t.left != [] && t.ttt != RESERVED_TAG && Continuations(tags)
    requires Count(tags, t.ttt) >= |Chain(t, t.ttt, whole, max)|
    ensures var rs := Accepted(Continue(t, tags, whole, max).1);
      Concat(rs) == t.left && Fragments(rs, max, t.ttt)
  {
    WrongTagsHarmless(t, tags, whole, max);
    Continued(t, whole, max);
  }

  /** A request, and then enough continuations with its tag and any with others: the whole response is delivered. */
  lemma DeliveredDespiteNoise(s: State, tags: seq<u32>, whole: string, max: nat)
    requires max > 0 && |whole| > max && Continuations(tags)
    ensures var (t, r) := Exec(s, RESERVED_TAG, whole, max);
      && r == Reply(whole[..max], false, NewTag(s.ttt)) && t.ttt == r.ttt != RESERVED_TAG
      && (Count(tags, t.ttt) >= |Chain(t, t.ttt, whole, max)| ==>
            var rs := Accepted(Continue(t, tags, whole, max).1);
            r.data + Concat(rs) == whole && Fragments(rs, max, t.ttt))
  {
    var t := State(whole[max..], NewTag(s.ttt));
    assert Exec(s, RESERVED_TAG, whole, max) == (t, Reply(whole[..max], false, t.ttt));
    if Count(tags, t.ttt) >= |Chain(t, t.ttt, whole, max)| {
      EnoughRightTags(t, tags, whole, max);
      assert whole == whole[..max] + whole[max..];
    }
  }
}
