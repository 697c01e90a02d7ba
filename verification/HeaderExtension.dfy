/** In-place encryption of listed RTP header extension elements (RFC 6904). */
module HeaderExtension {
  import opened Octets
  import opened SrtpStatus
  import opened Crypto

  datatype Format = OneByte | TwoByte

  function FormatOf(profile: nat): Option<Format> {
    if profile == 0xbede then Some(OneByte)
    else if profile % 0x2000 == 0x100 then Some(TwoByte)
    else None
  }

  function HeaderSize(f: Format): nat {
    if f.OneByte? then 1 else 2
  }

  function ElementId(f: Format, data: Octets): nat
    requires |data| >= HeaderSize(f)
  {
    if f.OneByte? then data[0] / 16 else data[0]
  }

  function ElementSize(f: Format, data: Octets): (n: nat)
    requires |data| >= HeaderSize(f)
    ensures HeaderSize(f) + n <= 257
  {
    if f.OneByte? then data[0] % 16 + 1 else data[1]
  }

  lemma ElementFields(f: Format, data: Octets)
    requires |data| >= HeaderSize(f)
    ensures HeaderSize(f) == if f.OneByte? then 1 else 2
    ensures ElementId(f, data) == if f.OneByte? then data[0] / 16 else data[0]
    ensures ElementSize(f, data) == if f.OneByte? then data[0] % 16 + 1 else data[1]
  {
  }

  function LeadingZeros(data: Octets): (n: nat)
    ensures n <= |data|
    ensures forall i :: 0 <= i < n ==> data[i] == 0
    ensures n < |data| ==> data[n] != 0
  {
    if data == [] || data[0] != 0 then 0 else 1 + LeadingZeros(data[1..])
  }

  // ----- The transformation

  datatype Result = Result(data: Octets, status: Status)

  /** The walk stops: no room for another element, a truncated element, or the terminator. */
  predicate Stops(f: Format, data: Octets) {
    || |data| < HeaderSize(f)
    || HeaderSize(f) + ElementSize(f, data) > |data|
    || (f.OneByte? && ElementId(f, data) == 15)
  }

  lemma StopsIs(f: Format, data: Octets)
    ensures Stops(f, data) <==>
            || |data| < HeaderSize(f)
            || HeaderSize(f) + ElementSize(f, data) > |data|
            || (f.OneByte? && ElementId(f, data) == 15)
    ensures Stops(f, data) ==>
              (StopStatus(f, data) == ParseErr
               <==> |data| >= HeaderSize(f) && HeaderSize(f) + ElementSize(f, data) > |data|)
    ensures Stops(f, data) ==> StopStatus(f, data) == ParseErr || StopStatus(f, data) == Ok
  {
  }

  function StopStatus(f: Format, data: Octets): Status
    requires Stops(f, data)
  {
    if |data| >= HeaderSize(f) && HeaderSize(f) + ElementSize(f, data) > |data| then ParseErr else Ok
  }

  /** Where the next element starts: behind this one and the padding that follows it. */
  function NextElement(f: Format, data: Octets): (n: nat)
    requires !Stops(f, data)
    ensures 0 < HeaderSize(f) + ElementSize(f, data) <= n <= |data|
  {
    var used := HeaderSize(f) + ElementSize(f, data);
    used + LeadingZeros(data[used..])
  }

  lemma NextElementIs(f: Format, data: Octets)
    requires !Stops(f, data)
    ensures |data| >= HeaderSize(f)
    ensures var used := HeaderSize(f) + ElementSize(f, data);
            used <= |data| && NextElement(f, data) == used + LeadingZeros(data[used..])
  {
  }

  /** The octets of an element: exclusive-ored with the keystream if its id is listed. */
  function Masked(listed: bool, body: Octets, key: nat -> Octet, at: nat): (r: Octets)
    ensures |r| == |body|
  {
    if listed then XorWith(body, key, at) else body
  }

  lemma MaskedTwice(listed: bool, body: Octets, key: nat -> Octet, at: nat)
    ensures Masked(listed, Masked(listed, body, key, at), key, at) == body
  {
    XorWithTwice(body, key, at);
  }

  /** The first element and its padding after processing; `at` is the keystream position. */
  function Head(f: Format, ids: seq<int>, key: nat -> Octet, data: Octets, at: nat): (r: Octets)
    requires !Stops(f, data)
    ensures |r| == NextElement(f, data)
  {
    var h, used := HeaderSize(f), HeaderSize(f) + ElementSize(f, data);
    data[..h] + Masked(ElementId(f, data) in ids, data[h..used], key, at + h) + data[used..NextElement(f, data)]
  }

  function Transform(f: Format, ids: seq<int>, key: nat -> Octet, data: Octets, at: nat): (r: Result)
    ensures |r.data| == |data|
    decreases |data|
  {
    if Stops(f, data) then Result(data, StopStatus(f, data))
    else
      var next := NextElement(f, data);
      var rest := Transform(f, ids, key, data[next..], at + HeaderSize(f) + ElementSize(f, data));
      Result(Head(f, ids, key, data, at) + rest.data, rest.status)
  }

  lemma TransformKeepsFirst(f: Format, ids: seq<int>, key: nat -> Octet, data: Octets, at: nat)
    ensures |data| > 0 ==> Transform(f, ids, key, data, at).data[0] == data[0]
  {
  }

  lemma ZerosAgree(a: Octets, b: Octets)
    requires |a| == |b|
    requires forall i :: 0 <= i < |a| && i <= LeadingZeros(a) ==> b[i] == a[i]
    ensures LeadingZeros(b) == LeadingZeros(a)
  {
    hide *;
  }

  /** Element headers and padding survive processing, so a second walk meets the same element. */
  lemma HeadKeepsElement(f: Format, ids: seq<int>, key: nat -> Octet, data: Octets, at: nat, tail: Octets)
    requires !Stops(f, data) && |tail| == |data| - NextElement(f, data)
    requires |tail| > 0 ==> tail[0] == data[NextElement(f, data)]
    ensures var out := Head(f, ids, key, data, at) + tail;
            && !Stops(f, out)
            && ElementId(f, out) == ElementId(f, data)
            && ElementSize(f, out) == ElementSize(f, data)
            && NextElement(f, out) == NextElement(f, data)
  {
    hide Masked, LeadingZeros;
    var out := Head(f, ids, key, data, at) + tail;
    var h, used, next := HeaderSize(f), HeaderSize(f) + ElementSize(f, data), NextElement(f, data);
    assert out[0] == data[0] && (f.TwoByte? ==> out[1] == data[1]);
    assert forall i :: used <= i < |data| && i <= next ==> out[i] == data[i];
    ZerosAgree(data[used..], out[used..]);
  }

  lemma SliceOfThree(a: Octets, b: Octets, c: Octets, d: Octets)
    ensures var s := a + b + c + d;
            && s[..|a|] == a && s[|a|..|a| + |b|] == b && s[|a| + |b|..|a| + |b| + |c|] == c
            && s[|a| + |b| + |c|..] == d
  {
  }

  lemma FourSlices(s: Octets, i: nat, j: nat, k: nat)
    requires i <= j <= k <= |s|
    ensures s[..i] + s[i..j] + s[j..k] + s[k..] == s
  {
  }

  lemma HeadParts(f: Format, ids: seq<int>, key: nat -> Octet, data: Octets, at: nat)
    requires !Stops(f, data)
    ensures var h, used := HeaderSize(f), HeaderSize(f) + ElementSize(f, data);
            && h <= used <= NextElement(f, data) <= |data|
            && Head(f, ids, key, data, at)
               == data[..h] + Masked(ElementId(f, data) in ids, data[h..used], key, at + h)
                  + data[used..NextElement(f, data)]
  {
  }

  lemma HeadTwice(f: Format, ids: seq<int>, key: nat -> Octet, data: Octets, at: nat, out: Octets, tail: Octets)
    requires !Stops(f, data) && |tail| == |data| - NextElement(f, data)
    requires tail != [] ==> tail[0] == data[NextElement(f, data)]
    requires out == Head(f, ids, key, data, at) + tail
    ensures !Stops(f, out) && NextElement(f, out) == NextElement(f, data)
    ensures ElementSize(f, out) == ElementSize(f, data)
    ensures Head(f, ids, key, out, at) + data[NextElement(f, data)..] == data
  {
    hide *;
    HeadKeepsElement(f, ids, key, data, at, tail);
    HeadParts(f, ids, key, data, at);
    HeadParts(f, ids, key, out, at);
    var h, used, next := HeaderSize(f), HeaderSize(f) + ElementSize(f, data), NextElement(f, data);
    var listed := ElementId(f, data) in ids;
    SliceOfThree(data[..h], Masked(listed, data[h..used], key, at + h), data[used..next], tail);
    MaskedTwice(listed, data[h..used], key, at + h);
    FourSlices(data, h, used, next);
  }

  lemma TransformUnfold(f: Format, ids: seq<int>, key: nat -> Octet, data: Octets, at: nat)
    ensures Stops(f, data) ==> Transform(f, ids, key, data, at) == Result(data, StopStatus(f, data))
    ensures !Stops(f, data) ==>
              var next, used := NextElement(f, data), HeaderSize(f) + ElementSize(f, data);
              var rest := Transform(f, ids, key, data[next..], at + used);
              Transform(f, ids, key, data, at) == Result(Head(f, ids, key, data, at) + rest.data, rest.status)
  {
  }

  /** Running the transformation twice restores the data, whatever its status. */
  lemma {:induction false} TransformTwice(f: Format, ids: seq<int>, key: nat -> Octet, data: Octets, at: nat)
    ensures var r := Transform(f, ids, key, data, at);
            Transform(f, ids, key, r.data, at) == Result(data, r.status)
    decreases |data|
  {
    hide *;
    TransformUnfold(f, ids, key, data, at);
    if !Stops(f, data) {
      var next, at' := NextElement(f, data), at + HeaderSize(f) + ElementSize(f, data);
      var rest := Transform(f, ids, key, data[next..], at');
      var out := Head(f, ids, key, data, at) + rest.data;
      TransformKeepsFirst(f, ids, key, data[next..], at');
      HeadTwice(f, ids, key, data, at, out, rest.data);
      assert out[next..] == rest.data;
      TransformTwice(f, ids, key, data[next..], at');
      TransformUnfold(f, ids, key, out, at);
    }
  }

  // ----- Which octets change, stated over the list of elements

  /** An element of the extension: where its header starts, its id and its data size. */
  datatype Element = Element(start: nat, id: nat, size: nat)

  function Elements(f: Format, data: Octets, base: nat): seq<Element>
    decreases |data|
  {
    if Stops(f, data) then []
    else
      [Element(base, ElementId(f, data), ElementSize(f, data))]
      + Elements(f, data[NextElement(f, data)..], base + NextElement(f, data))
  }

  /** The octets, header and data, of the first `i` elements. */
  function OctetsBefore(f: Format, elements: seq<Element>, i: nat): nat
    requires i <= |elements|
  {
    if i == 0 then 0 else HeaderSize(f) + elements[0].size + OctetsBefore(f, elements[1..], i - 1)
  }

  predicate InBody(f: Format, e: Element, p: nat) {
    e.start + HeaderSize(f) <= p < e.start + HeaderSize(f) + e.size
  }

  lemma ElementsUnfold(f: Format, data: Octets, base: nat)
    ensures Stops(f, data) ==> Elements(f, data, base) == []
    ensures !Stops(f, data) ==>
              var next := NextElement(f, data);
              && |data| >= HeaderSize(f)
              && Elements(f, data, base)
                 == [Element(base, ElementId(f, data), ElementSize(f, data))] + Elements(f, data[next..], base + next)
  {
  }

  /** The walk visits disjoint elements in order and stays inside the extension. */
  lemma {:induction false} ElementsInside(f: Format, data: Octets, base: nat)
    ensures var es := Elements(f, data, base);
            && (forall i :: 0 <= i < |es| ==> base <= es[i].start
                                              && es[i].start + HeaderSize(f) + es[i].size <= base + |data|)
            && (forall i :: 0 < i < |es| ==> es[i - 1].start + HeaderSize(f) + es[i - 1].size <= es[i].start)
    decreases |data|
  {
    hide *;
    ElementsUnfold(f, data, base);
    if !Stops(f, data) {
      var next := NextElement(f, data);
      ElementsInside(f, data[next..], base + next);
    }
  }

  /** Processing leaves the list of elements as it was. */
  lemma {:induction false} TransformKeepsElements(
    f: Format, ids: seq<int>, key: nat -> Octet, data: Octets, at: nat, base: nat)
    ensures Elements(f, Transform(f, ids, key, data, at).data, base) == Elements(f, data, base)
    decreases |data|
  {
    hide *;
    TransformUnfold(f, ids, key, data, at);
    if !Stops(f, data) {
      var next, at' := NextElement(f, data), at + HeaderSize(f) + ElementSize(f, data);
      var rest := Transform(f, ids, key, data[next..], at');
      var out := Head(f, ids, key, data, at) + rest.data;
      TransformKeepsFirst(f, ids, key, data[next..], at');
      HeadKeepsElement(f, ids, key, data, at, rest.data);
      assert out[next..] == rest.data;
      ElementsUnfold(f, data, base);
      ElementsUnfold(f, out, base);
      TransformKeepsElements(f, ids, key, data[next..], at', base + next);
    }
  }

  lemma MaskedAt(listed: bool, body: Octets, key: nat -> Octet, at: nat, k: nat)
    requires k < |body|
    ensures Masked(listed, body, key, at)[k] == if listed then Xor(body[k], key(at + k)) else body[k]
  {
  }

  lemma HeadAt(f: Format, ids: seq<int>, key: nat -> Octet, data: Octets, at: nat, p: nat)
    requires !Stops(f, data) && p < NextElement(f, data)
    ensures Head(f, ids, key, data, at)[p]
            == if HeaderSize(f) <= p < HeaderSize(f) + ElementSize(f, data) && ElementId(f, data) in ids
               then Xor(data[p], key(at + p))
               else data[p]
  {
    hide *;
    HeadParts(f, ids, key, data, at);
    var h, used := HeaderSize(f), HeaderSize(f) + ElementSize(f, data);
    if h <= p < used {
      MaskedAt(ElementId(f, data) in ids, data[h..used], key, at + h, p - h);
    }
  }

  lemma HeadFromOctets(f: Format, ids: seq<int>, key: nat -> Octet, data: Octets, at: nat, out: Octets)
    requires !Stops(f, data) && |out| == NextElement(f, data)
    requires forall p | 0 <= p < |out| ::
               out[p] == if HeaderSize(f) <= p < HeaderSize(f) + ElementSize(f, data) && ElementId(f, data) in ids
                         then Xor(data[p], key(at + p))
                         else data[p]
    ensures out == Head(f, ids, key, data, at)
  {
    hide *;
    forall p | 0 <= p < |out| {
      HeadAt(f, ids, key, data, at, p);
    }
  }

  lemma OctetsBeforeUnfold(f: Format, elements: seq<Element>, i: nat)
    requires i <= |elements|
    ensures i == 0 ==> OctetsBefore(f, elements, i) == 0
    ensures i > 0 ==> OctetsBefore(f, elements, i)
                      == HeaderSize(f) + elements[0].size + OctetsBefore(f, elements[1..], i - 1)
  {
  }

  /** A data octet of an element is combined with the keystream octet whose position counts all
      octets of earlier elements, listed or not, if the element is listed; otherwise it is kept. */
  lemma {:induction false} BodyOctet(
    f: Format, ids: seq<int>, key: nat -> Octet, data: Octets, at: nat, base: nat, i: nat, p: nat)
    requires p < |data|
    requires i < |Elements(f, data, base)|
    requires var e := Elements(f, data, base)[i];
             e.start + HeaderSize(f) <= base + p < e.start + HeaderSize(f) + e.size
    ensures var es := Elements(f, data, base);
            Transform(f, ids, key, data, at).data[p]
            == if es[i].id in ids
               then Xor(data[p], key(at + OctetsBefore(f, es, i) + (base + p - es[i].start)))
               else data[p]
    decreases |data|
  {
    hide *;
    var es := Elements(f, data, base);
    TransformUnfold(f, ids, key, data, at);
    ElementsUnfold(f, data, base);
    OctetsBeforeUnfold(f, es, i);
    var next, used := NextElement(f, data), HeaderSize(f) + ElementSize(f, data);
    if i == 0 {
      HeadAt(f, ids, key, data, at, p);
    } else {
      ElementsInside(f, data[next..], base + next);
      assert es[1..] == Elements(f, data[next..], base + next);
      BodyOctet(f, ids, key, data[next..], at + used, base + next, i - 1, p - next);
    }
  }

  /** Every octet outside the data of listed elements is kept. */
  lemma {:induction false} OtherOctet(
    f: Format, ids: seq<int>, key: nat -> Octet, data: Octets, at: nat, base: nat, p: nat)
    requires p < |data|
    requires forall e | e in Elements(f, data, base) && e.id in ids :: !InBody(f, e, base + p)
    ensures Transform(f, ids, key, data, at).data[p] == data[p]
    decreases |data|
  {
    hide LeadingZeros, NextElement, ElementSize, ElementId, Head, Transform, Elements, Stops, HeaderSize;
    TransformUnfold(f, ids, key, data, at);
    ElementsUnfold(f, data, base);
    if !Stops(f, data) {
      var next, used := NextElement(f, data), HeaderSize(f) + ElementSize(f, data);
      var es := Elements(f, data, base);
      if p < next {
        HeadAt(f, ids, key, data, at, p);
        assert es[0] in es;
      } else {
        assert forall e | e in Elements(f, data[next..], base + next) :: e in es;
        OtherOctet(f, ids, key, data[next..], at + used, base + next, p - next);
      }
    }
  }

  // ----- The in-place walk

  /** What processing does to the data of an extension with the given profile field. */
  function Process(profile: nat, ids: seq<int>, key: nat -> Octet, data: Octets, at: nat): (r: Result)
    ensures |r.data| == |data|
  {
    match FormatOf(profile)
    case Some(f) => Transform(f, ids, key, data, at)
    case None => Result(data, ParseErr)
  }

  lemma ProcessUnfold(profile: nat, ids: seq<int>, key: nat -> Octet, data: Octets, at: nat)
    ensures Process(profile, ids, key, data, at)
            == match FormatOf(profile)
               case Some(f) => Transform(f, ids, key, data, at)
               case None => Result(data, ParseErr)
  {
  }

  /** Header extension processing is its own inverse. */
  lemma ProcessTwice(profile: nat, ids: seq<int>, key: nat -> Octet, data: Octets, at: nat)
    ensures var r := Process(profile, ids, key, data, at);
            Process(profile, ids, key, r.data, at) == Result(data, r.status)
  {
    hide *;
    ProcessUnfold(profile, ids, key, data, at);
    match FormatOf(profile)
    case None =>
    case Some(f) =>
      TransformTwice(f, ids, key, data, at);
      ProcessUnfold(profile, ids, key, Transform(f, ids, key, data, at).data, at);
  }

  function Prepend(front: Octets, r: Result): Result {
    Result(front + r.data, r.status)
  }

  lemma PrependNothing(r: Result)
    ensures Prepend([], r) == r
  {
    assert [] + r.data == r.data;
  }

  lemma PrependIs(front: Octets, data: Octets, status: Status)
    ensures Prepend(front, Result(data, status)) == Result(front + data, status)
  {
  }

  lemma PrependTwice(a: Octets, b: Octets, r: Result)
    ensures Prepend(a, Result(b + r.data, r.status)) == Prepend(a + b, r)
  {
    assert a + (b + r.data) == a + b + r.data;
  }

  method XorBody(pkt: array<Octet>, from: nat, n: nat, keystream: array<Octet>, first: nat)
    requires from + n <= pkt.Length && first + n <= keystream.Length && pkt != keystream
    modifies pkt
    ensures forall k :: 0 <= k < pkt.Length ==>
              pkt[k] == if from <= k < from + n then Xor(old(pkt[k]), keystream[first + (k - from)]) else old(pkt[k])
  {
    var i := 0;
    while i < n
      invariant i <= n
      invariant forall k :: 0 <= k < pkt.Length ==>
                  pkt[k] == if from <= k < from + i then Xor(old(pkt[k]), keystream[first + (k - from)]) else old(pkt[k])
    {
      pkt[from + i] := Xor(pkt[from + i], keystream[first + i]);
      i := i + 1;
    }
  }

  method SkipPadding(pkt: array<Octet>, from: nat, end: nat) returns (pos: nat)
    requires from <= end <= pkt.Length
    ensures pos == from + LeadingZeros(pkt[from..end])
  {
    pos := from;
    while pos < end && pkt[pos] == 0
      invariant from <= pos <= end
      invariant LeadingZeros(pkt[from..end]) == pos - from + LeadingZeros(pkt[pos..end])
    {
      assert pkt[pos..end][1..] == pkt[pos + 1..end];
      pos := pos + 1;
    }
  }

  /** Takes the element's share of the keystream and, if it is listed, masks its data. */
  method MaskElement(
    prim: Primitives, cipher: Cipher, listed: bool,
    pkt: array<Octet>, pos: nat, h: nat, size: nat, keystream: array<Octet>)
    requires pos + h + size <= pkt.Length && keystream.Length == 257 && h + size <= 257 && pkt != keystream
    modifies cipher, pkt, keystream
    ensures cipher.iv == old(cipher.iv) && cipher.Stream(prim) == old(cipher.Stream(prim))
    ensures cipher.pos == old(cipher.pos) + h + size
    ensures forall k :: 0 <= k < pkt.Length ==>
              pkt[k] == if pos + h <= k < pos + h + size && listed
                        then Xor(old(pkt[k]), old(cipher.Stream(prim))(old(cipher.pos) + (k - pos)))
                        else old(pkt[k])
  {
    hide *;
    cipher.Output(prim, keystream, h + size);
    if listed {
      XorBody(pkt, pos + h, size, keystream, h);
    }
  }

  /** One turn of the walk: the element at `pos` and the padding behind it. */
  method ProcessElement(
    prim: Primitives, cipher: Cipher, f: Format, ids: seq<int>,
    pkt: array<Octet>, pos: nat, end: nat, keystream: array<Octet>)
    returns (next: nat)
    requires pos <= end <= pkt.Length && keystream.Length == 257 && pkt != keystream
    requires !Stops(f, pkt[pos..end])
    modifies cipher, pkt, keystream
    ensures var data := old(pkt[pos..end]);
            && next == pos + NextElement(f, data)
            && pkt[pos..next] == Head(f, ids, old(cipher.Stream(prim)), data, old(cipher.pos))
            && cipher.iv == old(cipher.iv) && cipher.Stream(prim) == old(cipher.Stream(prim))
            && cipher.pos == old(cipher.pos) + HeaderSize(f) + ElementSize(f, data)
    ensures forall k :: 0 <= k < pos || next <= k < pkt.Length ==> pkt[k] == old(pkt[k])
  {
    hide *;
    ghost var before, key, at := pkt[..], cipher.Stream(prim), cipher.pos;
    NextElementIs(f, before[pos..end]);
    ElementFields(f, before[pos..end]);
    var h := HeaderSize(f);
    var id := if f.OneByte? then pkt[pos] / 16 else pkt[pos];
    var size := if f.OneByte? then pkt[pos] % 16 + 1 else pkt[pos + 1];
    MaskElement(prim, cipher, id in ids, pkt, pos, h, size, keystream);
    MaskedIsHead(f, ids, key, before, pkt[..], at, pos, end);
    next := SkipPadding(pkt, pos + h + size, end);
  }

  lemma MaskedIsHead(
    f: Format, ids: seq<int>, key: nat -> Octet, before: Octets, after: Octets, at: nat, pos: nat, end: nat)
    requires pos <= end <= |before| == |after| && !Stops(f, before[pos..end])
    requires var data, h := before[pos..end], HeaderSize(f);
             forall k :: 0 <= k < |before| ==>
               after[k] == if pos + h <= k < pos + h + ElementSize(f, data) && ElementId(f, data) in ids
                           then Xor(before[k], key(at + (k - pos)))
                           else before[k]
    ensures var data, used := before[pos..end], HeaderSize(f) + ElementSize(f, before[pos..end]);
            && pos + used <= end
            && after[pos + used..end] == data[used..]
            && NextElement(f, data) == used + LeadingZeros(after[pos + used..end])
            && after[pos..pos + NextElement(f, data)] == Head(f, ids, key, data, at)
  {
    hide *;
    var data := before[pos..end];
    NextElementIs(f, data);
    var used := HeaderSize(f) + ElementSize(f, data);
    SameSlice(after[pos + used..end], data[used..]);
    HeadFromOctets(f, ids, key, data, at, after[pos..pos + NextElement(f, data)]);
  }

  lemma SameSlice(a: Octets, b: Octets)
    requires |a| == |b| && forall k :: 0 <= k < |a| ==> a[k] == b[k]
    ensures a == b
  {
  }

  method ProcessHeaderEncryption(prim: Primitives, cipher: Cipher, ids: seq<int>, pkt: array<Octet>, xtn: nat)
    returns (status: Status)
    requires xtn + 4 <= pkt.Length && xtn + 4 + 4 * U16(pkt[..], xtn + 2) <= pkt.Length
    modifies cipher, pkt
    ensures cipher.iv == old(cipher.iv)
    ensures var start, end := xtn + 4, xtn + 4 + 4 * old(U16(pkt[..], xtn + 2));
            && Result(pkt[start..end], status)
               == Process(old(U16(pkt[..], xtn)), ids, old(cipher.Stream(prim)), old(pkt[start..end]), old(cipher.pos))
            && forall k :: 0 <= k < start || end <= k < pkt.Length ==> pkt[k] == old(pkt[k])
  {
    hide *;
    var start, end := xtn + 4, xtn + 4 + 4 * U16(pkt[..], xtn + 2);
    ProcessUnfold(U16(pkt[..], xtn), ids, cipher.Stream(prim), pkt[start..end], cipher.pos);
    match FormatOf(U16(pkt[..], xtn))
    case None =>
      status := ParseErr;
    case Some(f) =>
      status := ProcessElements(prim, cipher, f, ids, pkt, start, end);
  }

  method ProcessElements(
    prim: Primitives, cipher: Cipher, f: Format, ids: seq<int>, pkt: array<Octet>, start: nat, end: nat)
    returns (status: Status)
    requires start <= end <= pkt.Length
    modifies cipher, pkt
    ensures cipher.iv == old(cipher.iv)
    ensures Result(pkt[start..end], status)
            == Transform(f, ids, old(cipher.Stream(prim)), old(pkt[start..end]), old(cipher.pos))
    ensures forall k :: 0 <= k < start || end <= k < pkt.Length ==> pkt[k] == old(pkt[k])
  {
    hide *;
    ghost var key, whole := cipher.Stream(prim), Transform(f, ids, cipher.Stream(prim), pkt[start..end], cipher.pos);
    PrependNothing(whole);
    assert pkt[start..start] == [];
    var keystream := new Octet[257];
    var h := HeaderSize(f);
    var pos := start;
    while pos + h <= end
      invariant start <= pos <= end && cipher.iv == old(cipher.iv) && cipher.Stream(prim) == key
      invariant forall k :: 0 <= k < start || end <= k < pkt.Length ==> pkt[k] == old(pkt[k])
      invariant whole == Prepend(pkt[start..pos], Transform(f, ids, key, pkt[pos..end], cipher.pos))
      decreases end - pos
    {
      ghost var before, at := pkt[..], cipher.pos;
      StopsIs(f, pkt[pos..end]);
      ElementFields(f, pkt[pos..end]);
      var id := if f.OneByte? then pkt[pos] / 16 else pkt[pos];
      var size := if f.OneByte? then pkt[pos] % 16 + 1 else pkt[pos + 1];
      if pos + h + size > end {
        WalkStops(f, ids, key, before, at, start, pos, end);
        return ParseErr;
      }
      if f.OneByte? && id == 15 {
        break;
      }
      var next := ProcessElement(prim, cipher, f, ids, pkt, pos, end, keystream);
      WalkContinues(f, ids, key, before, pkt[..], at, start, pos, next, end);
      pos := next;
    }
    StopsIs(f, pkt[pos..end]);
    WalkStops(f, ids, key, pkt[..], cipher.pos, start, pos, end);
    return Ok;
  }

  lemma WalkContinues(
    f: Format, ids: seq<int>, key: nat -> Octet, before: Octets, after: Octets,
    at: nat, start: nat, pos: nat, next: nat, end: nat)
    requires start <= pos <= next <= end <= |before| == |after|
    requires !Stops(f, before[pos..end]) && next == pos + NextElement(f, before[pos..end])
    requires after[pos..next] == Head(f, ids, key, before[pos..end], at)
    requires forall k :: 0 <= k < pos || next <= k < |after| ==> after[k] == before[k]
    ensures Prepend(before[start..pos], Transform(f, ids, key, before[pos..end], at))
            == Prepend(after[start..next], Transform(f, ids, key, after[next..end],
                                                     at + HeaderSize(f) + ElementSize(f, before[pos..end])))
  {
    hide *;
    var data, at' := before[pos..end], at + HeaderSize(f) + ElementSize(f, before[pos..end]);
    TransformUnfold(f, ids, key, data, at);
    SameSlice(before[start..pos], after[start..pos]);
    SameSlice(data[next - pos..], after[next..end]);
    PrependTwice(before[start..pos], after[pos..next], Transform(f, ids, key, after[next..end], at'));
    assert after[start..next] == after[start..pos] + after[pos..next];
  }

  lemma WalkStops(
    f: Format, ids: seq<int>, key: nat -> Octet, buffer: Octets, at: nat, start: nat, pos: nat, end: nat)
    requires start <= pos <= end <= |buffer| && Stops(f, buffer[pos..end])
    ensures Prepend(buffer[start..pos], Transform(f, ids, key, buffer[pos..end], at))
            == Result(buffer[start..end], StopStatus(f, buffer[pos..end]))
  {
    hide *;
    TransformUnfold(f, ids, key, buffer[pos..end], at);
    PrependIs(buffer[start..pos], buffer[pos..end], StopStatus(f, buffer[pos..end]));
    assert buffer[start..end] == buffer[start..pos] + buffer[pos..end];
  }
}
