/** The output path of a supervised process: the streaming redactor and the bounded writers
    of `internal/supervisor/process_windows.go`. */
module Redactor {
  import opened Wrappers

  newtype Byte = b: int | 0 <= b < 256

  type Bytes = seq<Byte>

  /** "[REDACTED]" */
  const MARK: Bytes := [91, 82, 69, 68, 65, 67, 84, 69, 68, 93]

  predicate NoEmpty(secrets: seq<Bytes>) { forall s :: s in secrets ==> s != [] }

  /** The first listed secret that the text starts with. */
  function Match(secrets: seq<Bytes>, text: Bytes): (m: Option<Bytes>)
    ensures m.Some? ==> m.value in secrets && m.value <= text
  {
    if secrets == [] then None
    else if secrets[0] <= text then Some(secrets[0])
    else Match(secrets[1..], text)
  }

  predicate CouldStart(secrets: seq<Bytes>, text: Bytes) {
    exists s :: s in secrets && text < s
  }

  /** Left-to-right first-match replacement of a whole text. */
  function Redact(secrets: seq<Bytes>, text: Bytes): Bytes
    requires NoEmpty(secrets)
    decreases |text|
  {
    if text == [] then []
    else match Match(secrets, text)
      case Some(s) => MARK + Redact(secrets, text[|s|..])
      case None => [text[0]] + Redact(secrets, text[1..])
  }

  /** What a non-final pass emits, and what it holds back. */
  function Drain(secrets: seq<Bytes>, text: Bytes): (r: (Bytes, Bytes))
    requires NoEmpty(secrets)
    ensures r.1 == [] || CouldStart(secrets, r.1)
    decreases |text|
  {
    if text == [] then ([], [])
    else match Match(secrets, text)
      case Some(s) => var (out, rest) := Drain(secrets, text[|s|..]); (MARK + out, rest)
      case None =>
        if CouldStart(secrets, text) then ([], text)
        else var (out, rest) := Drain(secrets, text[1..]); ([text[0]] + out, rest)
  }

  // ---- When splitting does not matter ----

  function Flatten(chunks: seq<Bytes>): Bytes {
    if chunks == [] then [] else chunks[0] + Flatten(chunks[1..])
  }

  /** The output of the chunks written one by one and then flushed, `held` being pending. */
  function Feed(secrets: seq<Bytes>, held: Bytes, chunks: seq<Bytes>): Bytes
    requires NoEmpty(secrets)
    decreases |chunks|
  {
    if chunks == [] then Redact(secrets, held)
    else
      var (out, rest) := Drain(secrets, held + chunks[0]);
      out + Feed(secrets, rest, chunks[1..])
  }

  /** Every split into writes gives the replacement of the whole text. */
  ghost predicate SplitIndependent(secrets: seq<Bytes>)
    requires NoEmpty(secrets)
  {
    forall chunks: seq<Bytes> :: Feed(secrets, [], chunks) == Redact(secrets, Flatten(chunks))
  }

  /** A secret that is a proper prefix of an earlier one never decides: some secret before
      that earlier one is a prefix of both. */
  predicate Stable(secrets: seq<Bytes>) {
    forall i, j {:trigger Preceded(secrets, i, j)} :: 0 <= i < j < |secrets| && secrets[j] < secrets[i] ==> Preceded(secrets, i, j)
  }

  predicate Preceded(secrets: seq<Bytes>, i: nat, j: nat)
    requires i <= |secrets| && j < |secrets|
  {
    exists k :: 0 <= k < i && secrets[k] <= secrets[j]
  }

  /** The plainer sufficient condition: no secret is a proper prefix of an earlier one. */
  lemma UnshadowedIsStable(secrets: seq<Bytes>)
    requires forall i, j :: 0 <= i < j < |secrets| ==> !(secrets[j] < secrets[i])
    ensures Stable(secrets)
  {
  }

  lemma {:induction false} MatchIsFirst(secrets: seq<Bytes>, text: Bytes) returns (k: nat)
    ensures Match(secrets, text).None? ==> k == |secrets|
    ensures Match(secrets, text).Some? ==> k < |secrets| && Match(secrets, text).value == secrets[k]
    ensures forall l :: 0 <= l < k ==> !(secrets[l] <= text)
  {
    if secrets == [] { return 0; }
    if secrets[0] <= text { return 0; }
    var tail := MatchIsFirst(secrets[1..], text);
    k := tail + 1;
    forall l | 0 <= l < k ensures !(secrets[l] <= text) {
      if l > 0 { assert secrets[l] == secrets[1..][l - 1]; }
    }
  }

  lemma MatchFrom(secrets: seq<Bytes>, text: Bytes, k: nat)
    requires k < |secrets| && secrets[k] <= text && forall l :: 0 <= l < k ==> !(secrets[l] <= text)
    ensures Match(secrets, text) == Some(secrets[k])
  {
    var m := MatchIsFirst(secrets, text);
  }

  lemma PrefixesNest(a: Bytes, b: Bytes, text: Bytes)
    requires a <= text && b <= text
    ensures a <= b || b < a
  {
    if |a| <= |b| {
      assert a == text[..|a|] == b[..|a|];
    } else {
      assert b == text[..|b|] == a[..|b|];
    }
  }

  lemma PrefixTransitive(a: Bytes, b: Bytes, c: Bytes)
    requires a <= b && b <= c
    ensures a <= c
  {
    assert a == b[..|a|] == c[..|b|][..|a|] == c[..|a|];
  }

  /** In a stable list, a secret that only longer text would match has one before it that
      the shorter text matches already. */
  lemma EarlierMatchedAlready(secrets: seq<Bytes>, text: Bytes, whole: Bytes, l: nat, k: nat) returns (x: nat)
    requires Stable(secrets) && l < k < |secrets|
    requires text <= whole && secrets[k] <= text && secrets[l] <= whole && !(secrets[l] <= text)
    ensures x < l && secrets[x] <= text
  {
    PrefixesNest(secrets[l], text, whole);
    PrefixTransitive(secrets[k], text, secrets[l]);
    assert Preceded(secrets, l, k);
    x :| 0 <= x < l && secrets[x] <= secrets[k];
    PrefixTransitive(secrets[x], secrets[k], text);
  }

  /** More text never changes a match. */
  lemma MatchSurvives(secrets: seq<Bytes>, text: Bytes, more: Bytes)
    requires Stable(secrets) && Match(secrets, text).Some?
    ensures Match(secrets, text + more) == Match(secrets, text)
  {
    var k := MatchIsFirst(secrets, text);
    var l := MatchIsFirst(secrets, text + more);
    PrefixTransitive(secrets[k], text, text + more);
    if l < k { var x := EarlierMatchedAlready(secrets, text, text + more, l, k); }
  }

  /** Text that no secret starts and that starts no secret stays so. */
  lemma NoMatchSurvives(secrets: seq<Bytes>, text: Bytes, more: Bytes)
    requires Match(secrets, text).None? && !CouldStart(secrets, text)
    ensures Match(secrets, text + more).None?
  {
    var l := MatchIsFirst(secrets, text);
    var k := MatchIsFirst(secrets, text + more);
    if k < |secrets| { PrefixesNest(secrets[k], text, text + more); }
  }

  lemma Associative(a: Bytes, b: Bytes, c: Bytes)
    ensures a + (b + c) == a + b + c
  {
  }

  /** The emitted part and the held part of a pass balance the text, whatever follows. */
  ghost predicate Split(secrets: seq<Bytes>, text: Bytes, out: Bytes, rest: Bytes, more: Bytes)
    requires NoEmpty(secrets)
  {
    Redact(secrets, text + more) == out + Redact(secrets, rest + more)
  }

  lemma SplitAfterMatch(secrets: seq<Bytes>, text: Bytes, s: Bytes, out: Bytes, rest: Bytes, more: Bytes)
    requires NoEmpty(secrets) && Stable(secrets) && text != [] && Match(secrets, text) == Some(s)
    requires Split(secrets, text[|s|..], out, rest, more)
    ensures Split(secrets, text, MARK + out, rest, more)
  {
    MatchSurvives(secrets, text, more);
    assert (text + more)[|s|..] == text[|s|..] + more;
    Associative(MARK, out, Redact(secrets, rest + more));
  }

  lemma SplitAfterByte(secrets: seq<Bytes>, text: Bytes, out: Bytes, rest: Bytes, more: Bytes)
    requires NoEmpty(secrets) && text != [] && Match(secrets, text).None? && !CouldStart(secrets, text)
    requires Split(secrets, text[1..], out, rest, more)
    ensures Split(secrets, text, [text[0]] + out, rest, more)
  {
    NoMatchSurvives(secrets, text, more);
    assert (text + more)[1..] == text[1..] + more;
    Associative([text[0]], out, Redact(secrets, rest + more));
  }

  /** What a pass emits, and what it holds back, add up to the replacement of any longer text. */
  lemma {:induction false} DrainThenRest(secrets: seq<Bytes>, text: Bytes, more: Bytes)
    requires NoEmpty(secrets) && Stable(secrets)
    ensures Split(secrets, text, Drain(secrets, text).0, Drain(secrets, text).1, more)
    decreases |text|
  {
    if text != [] {
      match Match(secrets, text)
      case Some(s) =>
        var (out, rest) := Drain(secrets, text[|s|..]);
        DrainThenRest(secrets, text[|s|..], more);
        SplitAfterMatch(secrets, text, s, out, rest, more);
      case None =>
        if !CouldStart(secrets, text) {
          var (out, rest) := Drain(secrets, text[1..]);
          DrainThenRest(secrets, text[1..], more);
          SplitAfterByte(secrets, text, out, rest, more);
        }
    }
  }

  lemma {:induction false} FeedIsRedact(secrets: seq<Bytes>, held: Bytes, chunks: seq<Bytes>)
    requires NoEmpty(secrets) && Stable(secrets)
    ensures Feed(secrets, held, chunks) == Redact(secrets, held + Flatten(chunks))
    decreases |chunks|
  {
    if chunks == [] {
      assert held + [] == held;
    } else {
      var (out, rest) := Drain(secrets, held + chunks[0]);
      FeedIsRedact(secrets, rest, chunks[1..]);
      DrainThenRest(secrets, held + chunks[0], Flatten(chunks[1..]));
      assert held + chunks[0] + Flatten(chunks[1..]) == held + Flatten(chunks);
    }
  }

  lemma RedactNotEmpty(secrets: seq<Bytes>, text: Bytes)
    requires NoEmpty(secrets) && text != []
    ensures |Redact(secrets, text)| >= 1
  {
  }

  /** An unstable list has a text that one split redacts differently. */
  lemma UnstableSplitDiffers(secrets: seq<Bytes>, i: nat, j: nat) returns (chunks: seq<Bytes>)
    requires NoEmpty(secrets) && i < j < |secrets| && secrets[j] < secrets[i] && !Preceded(secrets, i, j)
    ensures Feed(secrets, [], chunks) != Redact(secrets, Flatten(chunks))
  {
    var short := secrets[j];
    var m := MatchIsFirst(secrets, secrets[i]);
    assert m <= i;
    var text := secrets[m];
    PrefixesNest(text, short, secrets[i]);
    assert short < text;
    forall l | 0 <= l < m && secrets[l] <= text ensures secrets[l] <= secrets[i] {
      PrefixTransitive(secrets[l], text, secrets[i]);
    }
    MatchFrom(secrets, text, m);
    assert text[|text|..] == [];
    assert Redact(secrets, text) == MARK;
    chunks := [short, text[|short|..]];
    assert Flatten(chunks[1..][1..]) == [] && Flatten(chunks[1..]) == text[|short|..];
    assert Flatten(chunks) == text;
    var k := MatchIsFirst(secrets, short);
    var s := Match(secrets, short).value;
    var (out, rest) := Drain(secrets, short);
    assert [] + short == short;
    assert |out| >= |MARK|;
    var (out2, rest2) := Drain(secrets, rest + chunks[1]);
    DrainLength(secrets, rest + chunks[1]);
    assert chunks[1..] == [chunks[1]] && chunks[1..][1..] == [];
    assert Feed(secrets, rest, chunks[1..]) == out2 + Redact(secrets, rest2);
    assert |Feed(secrets, [], chunks)| > |MARK|;
  }

  lemma {:induction false} DrainLength(secrets: seq<Bytes>, text: Bytes)
    requires NoEmpty(secrets) && text != []
    ensures var (out, rest) := Drain(secrets, text); |out| + |Redact(secrets, rest)| >= 1
  {
    var (out, rest) := Drain(secrets, text);
    if rest != [] { RedactNotEmpty(secrets, rest); }
  }

  /** The total output is the same for every split, and the replacement of the whole text,
      exactly for stable secret lists. */
  lemma SplitIndependentIffStable(secrets: seq<Bytes>)
    requires NoEmpty(secrets)
    ensures SplitIndependent(secrets) <==> Stable(secrets)
  {
    if Stable(secrets) {
      forall chunks: seq<Bytes> ensures Feed(secrets, [], chunks) == Redact(secrets, Flatten(chunks)) {
        FeedIsRedact(secrets, [], chunks);
        assert [] + Flatten(chunks) == Flatten(chunks);
      }
    } else {
      var i, j :| 0 <= i < j < |secrets| && secrets[j] < secrets[i] && !Preceded(secrets, i, j);
      var chunks := UnstableSplitDiffers(secrets, i, j);
    }
  }

  // ---- The redactor ----

  /** The part of an unbounded output that the limit lets through; no limit if not positive. */
  function Limit(max: int, text: Bytes): Bytes {
    if max <= 0 || |text| <= max then text else text[..max]
  }

  /** Input and output since the last Flush balance, whatever is written next. */
  ghost predicate Balanced(secrets: seq<Bytes>, flushed: Bytes, seen: Bytes, emitted: Bytes, pending: Bytes)
    requires NoEmpty(secrets)
  {
    forall more: Bytes {:trigger pending + more} :: flushed + Redact(secrets, seen + more) == emitted + Redact(secrets, pending + more)
  }

  lemma WriteKeepsBalance(secrets: seq<Bytes>, flushed: Bytes, seen: Bytes, emitted: Bytes, pending: Bytes, data: Bytes)
    requires NoEmpty(secrets) && Stable(secrets) && Balanced(secrets, flushed, seen, emitted, pending)
    ensures var (out, rest) := Drain(secrets, pending + data);
            Balanced(secrets, flushed, seen + data, emitted + out, rest)
  {
    var (out, rest) := Drain(secrets, pending + data);
    forall more: Bytes
      ensures flushed + Redact(secrets, seen + data + more) == emitted + out + Redact(secrets, rest + more)
    {
      Associative(seen, data, more);
      Associative(pending, data, more);
      DrainThenRest(secrets, pending + data, more);
      assert flushed + Redact(secrets, seen + (data + more)) == emitted + Redact(secrets, pending + (data + more));
      Associative(emitted, out, Redact(secrets, rest + more));
    }
  }

  class StreamRedactor {
    const secrets: seq<Bytes>
    const maxOutput: int
    var pending: Bytes
    var written: nat
    /** What the destination received. */
    var dst: Bytes
    /** The output before limiting, the output at the last Flush, and the input since. */
    ghost var emitted: Bytes
    ghost var flushed: Bytes
    ghost var seen: Bytes

    ghost predicate Valid()
      reads this
    {
      && NoEmpty(secrets)
      && dst == Limit(maxOutput, emitted) && written == |dst|
      && (pending == [] || CouldStart(secrets, pending))
      && (Stable(secrets) ==> Balanced(secrets, flushed, seen, emitted, pending))
    }

    constructor (listed: seq<Bytes>, max: int)
      ensures Valid() && maxOutput == max && seen == [] && emitted == flushed == dst == []
      ensures secrets == WithoutEmpty(listed)
    {
      maxOutput := max;
      pending, written, dst := [], 0, [];
      emitted, flushed, seen := [], [], [];
      secrets := WithoutEmpty(listed);
    }

    method Write(data: Bytes)
      requires Valid()
      modifies this
      ensures Valid() && seen == old(seen) + data && flushed == old(flushed)
      ensures (emitted, pending) ==
              var (out, rest) := Drain(secrets, old(pending) + data); (old(emitted) + out, rest)
    {
      if Stable(secrets) { WriteKeepsBalance(secrets, flushed, seen, emitted, pending, data); }
      pending := pending + data;
      Process(false);
      seen := seen + data;
    }

    method Flush()
      requires Valid()
      modifies this
      ensures Valid() && pending == [] && seen == []
      ensures emitted == flushed == old(emitted) + Redact(secrets, old(pending))
      ensures Stable(secrets) ==> emitted == old(flushed) + Redact(secrets, old(seen))
    {
      assert pending + [] == pending && seen + [] == seen;
      Process(true);
      flushed := emitted;
      seen := [];
    }

    /** One pass over the pending bytes; a final one holds nothing back. */
    method Process(final: bool)
      requires NoEmpty(secrets) && dst == Limit(maxOutput, emitted) && written == |dst|
      modifies this`pending, this`written, this`dst, this`emitted
      ensures dst == Limit(maxOutput, emitted) && written == |dst|
      ensures (emitted, pending) ==
              if final then (old(emitted) + Redact(secrets, old(pending)), [])
              else var (out, rest) := Drain(secrets, old(pending)); (old(emitted) + out, rest)
    {
      var output: Bytes := [];
      ghost var text := pending;
      assert output + Redact(secrets, text) == Redact(secrets, text) && output + Drain(secrets, text).0 == Drain(secrets, text).0;
      while pending != []
        invariant emitted == old(emitted) && dst == old(dst) && written == old(written)
        invariant final ==> output + Redact(secrets, pending) == Redact(secrets, text)
        invariant !final ==> (output + Drain(secrets, pending).0, Drain(secrets, pending).1) == Drain(secrets, text)
        decreases |pending|
      {
        var found := Match(secrets, pending);
        if found.Some? {
          Associative(output, MARK, Redact(secrets, pending[|found.value|..]));
          Associative(output, MARK, Drain(secrets, pending[|found.value|..]).0);
          output := output + MARK;
          pending := pending[|found.value|..];
        } else {
          if !final && CouldStart(secrets, pending) { break; }
          Associative(output, [pending[0]], Redact(secrets, pending[1..]));
          Associative(output, [pending[0]], Drain(secrets, pending[1..]).0);
          output := output + [pending[0]];
          pending := pending[1..];
        }
      }
      assert output + [] == output;
      Emit(output);
    }

    method Emit(data: Bytes)
      requires dst == Limit(maxOutput, emitted) && written == |dst|
      modifies this`written, this`dst, this`emitted
      ensures emitted == old(emitted) + data && dst == Limit(maxOutput, emitted) && written == |dst|
    {
      emitted := emitted + data;
      var out := data;
      if maxOutput > 0 {
        var remaining := maxOutput - written;
        if remaining <= 0 { return; }
        if |data| > remaining { out := data[..remaining]; }
      }
      dst := dst + out;
      written := written + |out|;
    }
  }

  function WithoutEmpty(listed: seq<Bytes>): (r: seq<Bytes>)
    ensures NoEmpty(r) && forall s :: s in r <==> s in listed && s != []
  {
    if listed == [] then []
    else if listed[0] == [] then WithoutEmpty(listed[1..])
    else [listed[0]] + WithoutEmpty(listed[1..])
  }

  // ---- The bounded writers ----

  /** The last `max` bytes of a text. */
  function Tail(max: nat, text: Bytes): Bytes {
    if |text| <= max then text else text[|text| - max..]
  }

  class BoundedTailWriter {
    var data: Bytes
    const max: int
    ghost var all: Bytes

    ghost predicate Valid()
      reads this
    {
      data == if max <= 0 then [] else Tail(max, all)
    }

    constructor (limit: int)
      ensures Valid() && max == limit && all == []
    {
      max, data, all := limit, [], [];
    }

    method Write(chunk: Bytes)
      requires Valid()
      modifies this
      ensures Valid() && all == old(all) + chunk
    {
      ghost var before := all;
      all := all + chunk;
      if max <= 0 { return; }
      if |chunk| >= max {
        data := chunk[|chunk| - max..];
        return;
      }
      data := data + chunk;
      var excess := |data| - max;
      if excess > 0 { data := data[excess..]; }
    }
  }

  class BoundedPrefixWriter {
    var dst: Bytes
    var written: nat
    const max: int
    ghost var all: Bytes

    ghost predicate Valid()
      reads this
    {
      written == |dst| && dst == if max <= 0 then [] else Limit(max, all)
    }

    constructor (limit: int)
      ensures Valid() && max == limit && all == []
    {
      max, dst, written, all := limit, [], 0, [];
    }

    method Write(chunk: Bytes)
      requires Valid()
      modifies this
      ensures Valid() && all == old(all) + chunk
    {
      all := all + chunk;
      if max <= written { return; }
      var remaining := max - written;
      var part := if |chunk| > remaining then chunk[..remaining] else chunk;
      dst := dst + part;
      written := written + |part|;
    }
  }
}
