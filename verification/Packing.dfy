/** Records packed in order into batches of bounded size. */
module Packing {
  import opened Sequences

  /** The bytes of some records, one after another. */
  function Joined(rs: seq<string>): string {
    if rs == [] then "" else rs[0] + Joined(rs[1..])
  }

  function Flat(groups: seq<seq<string>>): seq<string> {
    if groups == [] then [] else groups[0] + Flat(groups[1..])
  }

  function Bytes(groups: seq<seq<string>>): nat {
    if groups == [] then 0 else |Joined(groups[0])| + Bytes(groups[1..])
  }

  /** A record goes into the open batch if it still fits there, and starts a new one otherwise. */
  function AddTo(groups: seq<seq<string>>, open: bool, raw: string, maxBytes: int): seq<seq<string>> {
    if open && groups != [] && |Joined(Last(groups))| + |raw| <= maxBytes
    then Front(groups) + [Last(groups) + [raw]]
    else groups + [[raw]]
  }

  /** All the records, none of them longer than a batch may be. */
  function Packed(records: seq<string>, maxBytes: int): seq<seq<string>> {
    if records == [] then [] else AddTo(Packed(Front(records), maxBytes), true, Last(records), maxBytes)
  }

  lemma {:induction false} JoinedConcat(a: seq<string>, b: seq<string>)
    ensures Joined(a + b) == Joined(a) + Joined(b)
  {
    if a == [] {
      assert a + b == b;
    } else {
      JoinedConcat(a[1..], b);
      assert (a + b)[1..] == a[1..] + b;
      assert a[0] + (Joined(a[1..]) + Joined(b)) == a[0] + Joined(a[1..]) + Joined(b);
    }
  }

  lemma JoinedSnoc(a: seq<string>, raw: string)
    ensures Joined(a + [raw]) == Joined(a) + raw
  {
    JoinedConcat(a, [raw]);
    assert Joined([raw]) == raw + Joined([]) == raw;
  }

  lemma {:induction false} FlatConcat(a: seq<seq<string>>, b: seq<seq<string>>)
    ensures Flat(a + b) == Flat(a) + Flat(b) && Bytes(a + b) == Bytes(a) + Bytes(b)
  {
    if a == [] {
      assert a + b == b;
    } else {
      FlatConcat(a[1..], b);
      assert (a + b)[1..] == a[1..] + b;
      assert a[0] + (Flat(a[1..]) + Flat(b)) == a[0] + Flat(a[1..]) + Flat(b);
    }
  }

  lemma FlatOne(g: seq<string>)
    ensures Flat([g]) == g && Bytes([g]) == |Joined(g)|
  {
    assert Flat([g]) == g + Flat([]);
  }

  // ----- what packing keeps -----

  /** Whether a record was too much for the batch before it. */
  ghost predicate Exceeds(a: seq<string>, b: seq<string>, maxBytes: int) {
    b != [] && |Joined(a)| + |b[0]| > maxBytes
  }

  ghost predicate Tight(groups: seq<seq<string>>, maxBytes: int) {
    forall i :: 0 < i < |groups| ==> Exceeds(groups[i - 1], groups[i], maxBytes)
  }

  ghost predicate Fits(groups: seq<seq<string>>, maxBytes: int) {
    forall i :: 0 <= i < |groups| ==> groups[i] != [] && |Joined(groups[i])| <= maxBytes
  }

  /** Adding puts the record last and keeps the batches non-empty and small; batches that were filled up before the
      next was begun stay so, as long as the last one is open. */
  lemma AddKeeps(groups: seq<seq<string>>, open: bool, raw: string, maxBytes: int)
    requires Fits(groups, maxBytes) && |raw| <= maxBytes
    ensures var more := AddTo(groups, open, raw, maxBytes);
            && Flat(more) == Flat(groups) + [raw] && Fits(more, maxBytes)
            && (Tight(groups, maxBytes) && (open || groups == []) ==> Tight(more, maxBytes))
  {
    if open && groups != [] && |Joined(Last(groups))| + |raw| <= maxBytes {
      ExtendKeeps(groups, raw, maxBytes);
    } else {
      StartKeeps(groups, raw, maxBytes);
      if Tight(groups, maxBytes) && (open || groups == []) { StartTight(groups, raw, maxBytes); }
    }
  }

  lemma ExtendKeeps(groups: seq<seq<string>>, raw: string, maxBytes: int)
    requires groups != [] && Fits(groups, maxBytes) && |Joined(Last(groups))| + |raw| <= maxBytes
    ensures var more := Front(groups) + [Last(groups) + [raw]];
            && Flat(more) == Flat(groups) + [raw] && Fits(more, maxBytes)
            && (Tight(groups, maxBytes) ==> Tight(more, maxBytes))
  {
    var last := Last(groups);
    JoinedSnoc(last, raw);
    FlatConcat(Front(groups), [last]);
    FlatConcat(Front(groups), [last + [raw]]);
    FlatOne(last);
    FlatOne(last + [raw]);
    assert groups == Front(groups) + [last];
    assert Flat(Front(groups)) + (last + [raw]) == Flat(Front(groups)) + last + [raw];
    var more := Front(groups) + [last + [raw]];
    assert forall i :: 0 <= i < |groups| - 1 ==> more[i] == groups[i];
    assert (last + [raw])[0] == last[0];
    if Tight(groups, maxBytes) {
      forall i | 0 < i < |more| ensures Exceeds(more[i - 1], more[i], maxBytes) {
        assert Exceeds(groups[i - 1], groups[i], maxBytes);
      }
    }
  }

  lemma StartKeeps(groups: seq<seq<string>>, raw: string, maxBytes: int)
    requires Fits(groups, maxBytes) && |raw| <= maxBytes
    ensures Flat(groups + [[raw]]) == Flat(groups) + [raw] && Fits(groups + [[raw]], maxBytes)
  {
    FlatConcat(groups, [[raw]]);
    FlatOne([raw]);
    JoinedSnoc([], raw);
    assert [] + [raw] == [raw];
  }

  lemma StartTight(groups: seq<seq<string>>, raw: string, maxBytes: int)
    requires Tight(groups, maxBytes) && (groups != [] ==> |Joined(Last(groups))| + |raw| > maxBytes)
    ensures Tight(groups + [[raw]], maxBytes)
  {
    var more := groups + [[raw]];
    forall i | 0 < i < |more| ensures Exceeds(more[i - 1], more[i], maxBytes) {
      if i < |groups| { assert Exceeds(groups[i - 1], groups[i], maxBytes); }
    }
  }

  /** The packed batches are the records in order, none split, none empty, none too large, and none begun while the one
      before had room. */
  lemma {:induction false} PackedSound(records: seq<string>, maxBytes: int)
    requires forall i :: 0 <= i < |records| ==> |records[i]| <= maxBytes
    ensures var groups := Packed(records, maxBytes);
            Flat(groups) == records && Fits(groups, maxBytes) && Tight(groups, maxBytes)
  {
    if records != [] {
      PackedSound(Front(records), maxBytes);
      AddKeeps(Packed(Front(records), maxBytes), true, Last(records), maxBytes);
    }
  }

  /** Any two neighbours together are larger than one batch may be, so half the batches, times that, is less than the
      whole. */
  lemma {:induction false} FewBatches(groups: seq<seq<string>>, maxBytes: int)
    requires Fits(groups, maxBytes) && Tight(groups, maxBytes) && |groups| >= 2
    ensures |groups| / 2 * maxBytes < Bytes(groups)
    decreases |groups|
  {
    var rest := groups[2..];
    assert groups[1..][1..] == rest;
    assert Exceeds(groups[0], groups[1], maxBytes);
    assert |Joined(groups[1])| >= |groups[1][0]|;
    assert Bytes(groups) == |Joined(groups[0])| + |Joined(groups[1])| + Bytes(rest);
    if |rest| >= 2 {
      forall i | 0 < i < |rest| ensures Exceeds(rest[i - 1], rest[i], maxBytes) {
        assert Exceeds(groups[i + 1], groups[i + 2], maxBytes);
      }
      FewBatches(rest, maxBytes);
      OneMorePair(|rest| / 2, maxBytes);
      assert |groups| / 2 == |rest| / 2 + 1;
    } else {
      assert |groups| / 2 == 1;
    }
  }

  lemma OneMorePair(n: int, maxBytes: int)
    ensures (n + 1) * maxBytes == n * maxBytes + maxBytes
  {
  }

  lemma {:induction false} BytesOfFlat(groups: seq<seq<string>>)
    ensures Bytes(groups) == |Joined(Flat(groups))|
  {
    if groups != [] {
      BytesOfFlat(groups[1..]);
      JoinedConcat(groups[0], Flat(groups[1..]));
    }
  }

  /** The number of batches k of a packed list satisfies floor(k / 2) * maxBytes < total bytes once there are two. */
  lemma PackedFew(records: seq<string>, maxBytes: int)
    requires forall i :: 0 <= i < |records| ==> |records[i]| <= maxBytes
    ensures var k := |Packed(records, maxBytes)|;
            k >= 2 ==> k / 2 * maxBytes < |Joined(records)|
  {
    PackedSound(records, maxBytes);
    BytesOfFlat(Packed(records, maxBytes));
    if |Packed(records, maxBytes)| >= 2 { FewBatches(Packed(records, maxBytes), maxBytes); }
  }

  // ----- reading a file back by lines -----

  const BREAK := '\n'

  /** A record as written: one line, with its line break at the end. */
  ghost predicate IsLine(raw: string) {
    raw != "" && raw[|raw| - 1] == BREAK && forall i :: 0 <= i < |raw| - 1 ==> raw[i] != BREAK
  }

  /** How long the first line is, with its line break if it has one. */
  function FirstLine(s: string): (n: nat)
    requires s != ""
    ensures 1 <= n <= |s|
  {
    if s[0] == BREAK || |s| == 1 then 1 else 1 + FirstLine(s[1..])
  }

  /** The lines a file is read as. */
  function Lines(s: string): seq<string> {
    if s == "" then [] else [s[..FirstLine(s)]] + Lines(s[FirstLine(s)..])
  }

  lemma {:induction false} FirstLineIs(raw: string, rest: string)
    requires IsLine(raw)
    ensures FirstLine(raw + rest) == |raw|
    decreases |raw|
  {
    if raw[0] != BREAK {
      assert (raw + rest)[1..] == raw[1..] + rest;
      FirstLineIs(raw[1..], rest);
    }
  }

  /** A file of records is read back as just those records. */
  lemma {:induction false} LinesOfJoined(rs: seq<string>)
    requires forall i :: 0 <= i < |rs| ==> IsLine(rs[i])
    ensures Lines(Joined(rs)) == rs
  {
    if rs != [] {
      FirstLineIs(rs[0], Joined(rs[1..]));
      LinesOfJoined(rs[1..]);
      assert Joined(rs)[..|rs[0]|] == rs[0] && Joined(rs)[|rs[0]|..] == Joined(rs[1..]);
    }
  }
}
