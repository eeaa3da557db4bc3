/**
 The byte stream of the player (Annex B of ITU-T H.264): each payload stands behind a start code, and a decoder that
 looks for the start codes 0, 0, 1 gets the payloads back.
 */
module AnnexB {
  import opened Bytes
  import opened Protocol

  /** The payload of one RTP packet. */
  datatype Unit = Unit(data: Data, mark: bool, ts: int)

  function StartCode(mark: bool): (b: Data) {
    if mark then [0, 0, 0, 1] else [0, 0, 1]
  }

  function Framed(u: Unit): Data {
    StartCode(u.mark) + u.data
  }

  function Stream(us: seq<Unit>): Data {
    if us == [] then [] else Stream(us[..|us| - 1]) + Framed(us[|us| - 1])
  }

  lemma {:induction false} StreamConcat(a: seq<Unit>, b: seq<Unit>)
    ensures Stream(a + b) == Stream(a) + Stream(b)
    decreases |b|
  {
    if b == [] {
      assert a + b == a;
    } else {
      assert (a + b)[..|a + b| - 1] == a + b[..|b| - 1];
      StreamConcat(a, b[..|b| - 1]);
      Assoc(Stream(a), Stream(b[..|b| - 1]), Framed(b[|b| - 1]));
    }
  }

  lemma StreamFirst(us: seq<Unit>)
    requires us != []
    ensures Stream(us) == Framed(us[0]) + Stream(us[1..])
  {
    assert us == [us[0]] + us[1..];
    StreamConcat([us[0]], us[1..]);
    assert [us[0]][..0] == [] && Stream([us[0]]) == Stream([]) + Framed(us[0]);
  }

  /** Three zeros and a one with the mark, two zeros and a one without. */
  lemma CodeBytes(mark: bool)
    ensures var c := StartCode(mark);
            && |c| == (if mark then 4 else 3) && c[|c| - 1] == 1 && forall i :: 0 <= i < |c| - 1 ==> c[i] == 0
  {
  }

  /** At place `at` stand two or three zeros, then a one, then the payload of `u`. */
  ghost predicate Coded(s: Data, at: nat, u: Unit) {
    var zeros := if u.mark then 3 else 2;
    && at + zeros + 1 + |u.data| <= |s|
    && (forall i :: at <= i < at + zeros ==> s[i] == 0) && s[at + zeros] == 1
    && s[at + zeros + 1..at + zeros + 1 + |u.data|] == u.data
  }

  /** In the stream every payload has its zeros and its one directly in front of it. */
  lemma CodesInPlace(us: seq<Unit>, k: nat)
    requires k < |us|
    ensures Coded(Stream(us), |Stream(us[..k])|, us[k])
  {
    hide StartCode, Stream, Coded;
    var a, u, c := us[..k], us[k], us[k + 1..];
    assert us == a + us[k..] && us[k..][0] == u && us[k..][1..] == c;
    StreamConcat(a, us[k..]);
    StreamFirst(us[k..]);
    InPlace(Stream(a), u, Stream(c));
  }

  lemma InPlace(a: Data, u: Unit, c: Data)
    ensures Coded(a + (Framed(u) + c), |a|, u)
  {
    hide StartCode;
    CodeBytes(u.mark);
    var s, code := a + (Framed(u) + c), StartCode(u.mark);
    assert forall i :: 0 <= i < |code| ==> s[|a| + i] == code[i];
  }

  // ---------- A decoder ----------

  ghost predicate CodeAt(b: Data, i: nat) {
    i + 3 <= |b| && b[i] == 0 && b[i + 1] == 0 && b[i + 2] == 1
  }

  /** Where the next start code begins, or the end. */
  ghost function Find(b: Data, from: nat): (i: nat)
    requires from <= |b|
    ensures from <= i <= |b| && (i < |b| ==> CodeAt(b, i))
    decreases |b| - from
  {
    if from == |b| || CodeAt(b, from) then from else Find(b, from + 1)
  }

  /** Trailing zeros belong to the next start code. */
  ghost function Strip(d: Data): Data {
    if d == [] || d[|d| - 1] != 0 then d else Strip(d[..|d| - 1])
  }

  /** What a decoder reads from a byte stream. */
  ghost function Unframe(b: Data): seq<Data>
    decreases |b|
  {
    var i := Find(b, 0);
    if i == |b| then []
    else
      var j := Find(b, i + 3);
      [Strip(b[i + 3..j])] + Unframe(b[j..])
  }

  /** A payload that holds no start code and does not end in a zero, as the standard asks of it. */
  ghost predicate Clean(d: Data) {
    (forall i: nat :: !CodeAt(d, i)) && (d != [] ==> d[|d| - 1] != 0)
  }

  ghost predicate AllClean(us: seq<Unit>) {
    forall i :: 0 <= i < |us| ==> Clean(us[i].data)
  }

  function Payloads(us: seq<Unit>): (ds: seq<Data>)
    ensures |ds| == |us| && forall i :: 0 <= i < |us| ==> ds[i] == us[i].data
  {
    if us == [] then [] else [us[0].data] + Payloads(us[1..])
  }

  lemma {:induction false} FindIs(b: Data, from: nat, i: nat)
    requires from <= i <= |b| && (i == |b| || CodeAt(b, i))
    requires forall k: nat :: from <= k < i ==> !CodeAt(b, k)
    ensures Find(b, from) == i
    decreases i - from
  {
    if from < i { FindIs(b, from + 1, i); }
  }

  lemma {:induction false} FindShift(b: Data, from: nat)
    requires b != [] && from < |b|
    ensures Find(b, from + 1) == Find(b[1..], from) + 1
    decreases |b| - from
  {
    assert CodeAt(b, from + 1) <==> CodeAt(b[1..], from);
    if from + 1 < |b| && !CodeAt(b, from + 1) { FindShift(b, from + 1); }
  }

  /** What follows a payload: nothing, or a start code. */
  ghost predicate Follows(rest: Data) {
    rest == [] || CodeAt(rest, 0) || (|rest| >= 4 && rest[0] == 0 && CodeAt(rest, 1))
  }

  /** How far into it the first start code is. */
  ghost function Gap(rest: Data): nat {
    if rest == [] || CodeAt(rest, 0) then 0 else 1
  }

  lemma NoCodeBefore(d: Data, rest: Data, k: nat)
    requires Clean(d) && Follows(rest) && k < |d| + Gap(rest)
    ensures !CodeAt(d + rest, k)
  {
    var b := d + rest;
    if k + 3 <= |d| {
      assert !CodeAt(d, k);
    } else if k < |d| {
      assert b[|d| - 1] == d[|d| - 1] != 0;
    } else {
      assert rest[0] == 0 && rest[1] == 0 && rest[2] == 0;
      assert b[k + 2] == rest[2];
    }
  }

  lemma UnframeAt(b: Data, i: nat, j: nat)
    requires i + 3 <= |b| && Find(b, 0) == i && Find(b, i + 3) == j
    ensures i + 3 <= j <= |b| && Unframe(b) == [Strip(b[i + 3..j])] + Unframe(b[j..])
  {
    hide Find, Strip, CodeAt;
    var rest := Unframe(b[j..]);
  }

  /** An extra zero in front of a start code changes nothing. */
  lemma UnframeGap(rest: Data)
    requires Follows(rest)
    ensures Gap(rest) <= |rest| && Unframe(rest[Gap(rest)..]) == Unframe(rest)
  {
    hide Unframe;
    if Gap(rest) == 1 {
      UnframeShift(rest);
    } else {
      assert rest[0..] == rest;
    }
  }

  lemma UnframeShift(b: Data)
    requires |b| >= 4 && CodeAt(b, 1)
    ensures Unframe(b[1..]) == Unframe(b)
  {
    hide Unframe, Find, Strip, CodeAt;
    FindFront(b);
    var j := FindNext(b);
    SliceShift(b, j);
    UnframeSame(b, b[1..], j);
  }

  lemma FindFront(b: Data)
    requires |b| >= 4 && CodeAt(b, 1)
    ensures Find(b, 0) == 1 && Find(b[1..], 0) == 0
  {
    assert CodeAt(b[1..], 0) && !CodeAt(b, 0);
  }

  lemma UnframeSame(b: Data, r: Data, j: nat)
    requires 4 <= j <= |b| && |r| == |b| - 1 && Find(b, 0) == 1 && Find(r, 0) == 0
    requires Find(b, 4) == j && Find(r, 3) == j - 1 && r[3..j - 1] == b[4..j] && r[j - 1..] == b[j..]
    ensures Unframe(r) == Unframe(b)
  {
    hide Unframe, Find, Strip, CodeAt;
    UnframeAt(b, 1, j);
    UnframeAt(r, 0, j - 1);
  }

  lemma FindNext(b: Data) returns (j: nat)
    requires |b| >= 4
    ensures 4 <= j <= |b| && Find(b, 4) == j && Find(b[1..], 3) == j - 1
  {
    j := Find(b, 4);
    if |b| > 4 { FindShift(b, 3); }
  }

  lemma SliceShift(b: Data, j: nat)
    requires 4 <= j <= |b|
    ensures b[1..][3..j - 1] == b[4..j] && b[1..][j - 1..] == b[j..]
  {
  }

  lemma StripClean(d: Data)
    requires Clean(d)
    ensures Strip(d) == d && Strip(d + [0]) == d
  {
    assert (d + [0])[..|d|] == d;
  }

  /** The first unit of a stream is the first payload read. */
  lemma UnframeFirst(u: Unit, rest: Data)
    requires Clean(u.data) && Follows(rest)
    ensures Unframe(Framed(u) + rest) == [u.data] + Unframe(rest)
  {
    hide Clean, Follows, Unframe, Find, Strip, CodeAt, Gap, StartCode;
    var c := StartCode(u.mark);
    var b, end := c + (u.data + rest), |c| + (|u.data| + Gap(rest));
    Assoc(c, u.data, rest);
    UnframeGap(rest);
    FirstCode(u.mark, u.data + rest);
    NextCode(c, u.data, rest);
    UnframeAt(b, |c| - 3, end);
    Between(c, u.data, rest, Gap(rest));
    StripGap(u.data, rest);
  }

  lemma Between(c: Data, d: Data, rest: Data, g: nat)
    requires g <= |rest|
    ensures var b := c + (d + rest);
            b[|c|..|c| + (|d| + g)] == d + rest[..g] && b[|c| + (|d| + g)..] == rest[g..]
  {
  }

  lemma FirstCode(mark: bool, tail: Data)
    ensures var c := StartCode(mark); |c| >= 3 && Find(c + tail, 0) == |c| - 3
  {
    var b, i := StartCode(mark) + tail, if mark then 1 else 0;
    assert CodeAt(b, i) && (mark ==> !CodeAt(b, 0));
    FindIs(b, 0, i);
  }

  lemma NextCode(c: Data, d: Data, rest: Data)
    requires Clean(d) && Follows(rest)
    ensures Gap(rest) <= |rest| && Find(c + (d + rest), |c|) == |c| + (|d| + Gap(rest))
  {
    hide Clean, Find;
    var tail, b, end := d + rest, c + (d + rest), |d| + Gap(rest);
    forall k: nat | k <= |tail| ensures CodeAt(b, |c| + k) <==> CodeAt(tail, k) {}
    forall k: nat | |c| <= k < |c| + end ensures !CodeAt(b, k) {
      NoCodeBefore(d, rest, k - |c|);
      assert CodeAt(b, |c| + (k - |c|)) <==> CodeAt(tail, k - |c|);
    }
    CodeBehind(d, rest);
    FindIs(b, |c|, |c| + end);
  }

  lemma CodeBehind(d: Data, rest: Data)
    requires Follows(rest)
    ensures var end := |d| + Gap(rest); end == |d + rest| || (end < |d + rest| && CodeAt(d + rest, end))
  {
  }

  lemma StripGap(d: Data, rest: Data)
    requires Clean(d) && Follows(rest)
    ensures Gap(rest) <= |rest| && Strip(d + rest[..Gap(rest)]) == d
  {
    StripClean(d);
    assert rest[..Gap(rest)] == if Gap(rest) == 0 then [] else [0];
    assert d + [] == d;
  }

  lemma StreamFollows(us: seq<Unit>)
    ensures Follows(Stream(us))
  {
    if us != [] { StreamFirst(us); }
  }

  /** A decoder gets the payloads back, in order. */
  lemma {:induction false} UnframeStream(us: seq<Unit>)
    requires AllClean(us)
    ensures Unframe(Stream(us)) == Payloads(us)
  {
    hide Clean, Unframe, Stream;
    if us == [] {
      NothingToRead();
    } else {
      UnframeStream(us[1..]);
      StreamFirst(us);
      StreamFollows(us[1..]);
      UnframeFirst(us[0], Stream(us[1..]));
    }
  }

  lemma NothingToRead()
    ensures Stream([]) == [] && Unframe([]) == []
  {
  }
}
