/** Fetching an update package from peers: partial file, resume or restart, verify, then rename. */
module LanFetcher {
  import opened Wrappers

  type Byte = x: int | 0 <= x < 256
  type Bytes = seq<Byte>

  /** The destination and the partial file beside it. */
  datatype Files = Files(part: Option<Bytes>, dest: Option<Bytes>)

  datatype Ending = Closed | Stalled | Broken

  /** What a request meets. A body says whether it answers the range, the length it declares, the bytes received,
      how many of them reached the file, and how the transfer ended; a closed one has written everything. */
  datatype Reply =
    | Unreachable
    | Status(code: nat)
    | Body(ranged: bool, declared: nat, received: Bytes, written: nat, ending: Ending)

  datatype Outcome = Ok | Stall | Failed | Corrupt | Absent

  /** One attempt: the reply, and whether the final rename goes through. */
  datatype Attempt = Attempt(reply: Reply, renames: bool)

  /** Port 0 stands for a candidate without one. */
  datatype Candidate = Candidate(ip: string, port: nat)

  type Key = (string, nat)

  function Size(f: Option<Bytes>): nat {
    if f.Some? then |f.value| else 0
  }

  function KeyOf(c: Candidate): Key {
    (c.ip, if c.port == 0 then 34567 else c.port)
  }

  function Kept(r: Reply): Bytes
    requires r.Body?
  {
    if r.ending == Closed || r.written >= |r.received| then r.received else r.received[..r.written]
  }

  // ----- specification -----

  /** A resumed body is appended, any other starts the partial file anew. */
  function AfterPiece(part: Option<Bytes>, r: Reply): Option<Bytes> {
    if !r.Body? then part
    else Some((if r.ranged && Size(part) > 0 then part.value else []) + Kept(r))
  }

  function PieceOutcome(r: Reply): Outcome {
    match r
    case Unreachable => Failed
    case Status(code) => if code == 404 then Absent else Failed
    case Body(_, declared, received, _, ending) =>
      match ending
      case Closed => if declared > 0 && |received| < declared then Stall else Ok
      case Stalled => Stall
      case Broken => Failed
  }

  /** An empty expected digest accepts any existing file. */
  predicate Verified(hash: Bytes -> string, expected: string, f: Option<Bytes>) {
    f.Some? && (expected == "" || hash(f.value) == expected)
  }

  function FromPeer(hash: Bytes -> string, expected: string, f: Files, a: Attempt): (Files, Outcome) {
    var part := AfterPiece(f.part, a.reply);
    var outcome := PieceOutcome(a.reply);
    if outcome != Ok then (f.(part := part), outcome)
    else if !Verified(hash, expected, part) then (f.(part := None), Corrupt)
    else if a.renames then (Files(None, part), Ok)
    else (Files(part, None), Failed)
  }

  /** What trying the candidates in turn leaves: files, the address that delivered, the keys tried. */
  datatype Fetch = Fetch(files: Files, source: Option<string>, tried: seq<Key>)

  function TryAll(hash: Bytes -> string, expected: string, f: Files, cs: seq<Candidate>, tried: seq<Key>,
      answer: nat -> Attempt): Fetch
    decreases cs
  {
    if cs == [] then Fetch(f, None, tried)
    else if cs[0].ip == "" || KeyOf(cs[0]) in tried then TryAll(hash, expected, f, cs[1..], tried, answer)
    else
      var (g, outcome) := FromPeer(hash, expected, f, answer(|tried|));
      if outcome == Ok then Fetch(g, Some(cs[0].ip), tried + [KeyOf(cs[0])])
      else TryAll(hash, expected, g, cs[1..], tried + [KeyOf(cs[0])], answer)
  }

  // ----- the fetcher as it runs -----

  class LanUpdateFetcher {
    const hash: Bytes -> string
    var part: Option<Bytes>
    var dest: Option<Bytes>

    function State(): Files
      reads this
    {
      Files(part, dest)
    }

    constructor (h: Bytes -> string, f: Files)
      ensures hash == h && State() == f
    {
      hash, part, dest := h, f.part, f.dest;
    }

    method ScaricaPezzo(reply: Reply) returns (esito: Outcome)
      modifies this`part
      ensures part == AfterPiece(old(part), reply) && esito == PieceOutcome(reply)
    {
      var giaScaricati := Size(part);
      match reply
      case Unreachable => esito := Failed;
      case Status(code) => esito := if code == 404 then Absent else Failed;
      case Body(ranged, declared, received, written, ending) =>
        if giaScaricati > 0 && !ranged {
          part := None;
          giaScaricati := 0;
        }
        var totale := giaScaricati + declared;
        var ricevuti := giaScaricati + |received|;
        part := Some((if giaScaricati > 0 then part.value else []) + Kept(reply));
        if ending == Stalled {
          esito := Stall;
        } else if ending == Broken {
          esito := Failed;
        } else if declared > 0 && ricevuti < totale {
          esito := Stall;
        } else {
          esito := Ok;
        }
    }

    method ScaricaDaPari(atteso: string, a: Attempt) returns (esito: Outcome)
      modifies this
      ensures (State(), esito) == FromPeer(hash, atteso, old(State()), a)
    {
      esito := ScaricaPezzo(a.reply);
      if esito != Ok { return; }
      if !Verified(hash, atteso, part) {
        part := None;
        return Corrupt;
      }
      dest := None;
      if !a.renames {
        return Failed;
      }
      part, dest := None, part;
    }

    /** A destination already verified is kept; otherwise each address is tried at most once. */
    method ScaricaDallaRete(candidati: seq<Candidate>, atteso: string, answer: nat -> Attempt)
      returns (riuscito: bool, fonte: string, provati: seq<Key>)
      modifies this
      ensures riuscito ==> dest.Some? && (atteso == "" || hash(dest.value) == atteso)
      ensures Verified(hash, atteso, old(dest)) ==>
                riuscito && fonte == "locale" && provati == [] && State() == old(State())
      ensures !Verified(hash, atteso, old(dest)) ==>
                var r := TryAll(hash, atteso, old(State()), candidati, [], answer);
                && State() == r.files && provati == r.tried && (riuscito <==> r.source.Some?)
                && (riuscito ==> fonte == r.source.value)
    {
      provati := [];
      DestinationSafe(hash, atteso, State(), candidati, [], answer);
      if Verified(hash, atteso, dest) {
        return true, "locale", provati;
      }
      for i := 0 to |candidati|
        invariant TryAll(hash, atteso, old(State()), candidati, [], answer)
               == TryAll(hash, atteso, State(), candidati[i..], provati, answer)
      {
        assert candidati[i..][1..] == candidati[i + 1..];
        var c := candidati[i];
        if c.ip == "" || KeyOf(c) in provati { continue; }
        var esito := ScaricaDaPari(atteso, answer(|provati|));
        provati := provati + [KeyOf(c)];
        if esito == Ok {
          return true, c.ip, provati;
        }
      }
      return false, "", provati;
    }
  }

  // ----- any peers at all -----

  ghost predicate Distinct(s: seq<Key>) {
    forall i, j :: 0 <= i < j < |s| ==> s[i] != s[j]
  }

  /** There is a file, with the digest expected if one is. */
  ghost predicate Matches(hash: Bytes -> string, expected: string, f: Option<Bytes>) {
    f != None && (expected != "" ==> hash(f.value) == expected)
  }

  /** Whatever peers answer: the destination is left, removed, or written with a verified package; success
      means verified. */
  lemma {:induction false} DestinationSafe(hash: Bytes -> string, expected: string, f: Files, cs: seq<Candidate>,
      tried: seq<Key>, answer: nat -> Attempt)
    ensures var r := TryAll(hash, expected, f, cs, tried, answer);
            && (r.files.dest in {f.dest, None} || Matches(hash, expected, r.files.dest))
            && (r.source.Some? ==> Matches(hash, expected, r.files.dest) && r.files.part == None)
    decreases cs
  {
    if cs != [] {
      if cs[0].ip == "" || KeyOf(cs[0]) in tried {
        DestinationSafe(hash, expected, f, cs[1..], tried, answer);
      } else {
        var (g, outcome) := FromPeer(hash, expected, f, answer(|tried|));
        if outcome != Ok {
          DestinationSafe(hash, expected, g, cs[1..], tried + [KeyOf(cs[0])], answer);
        }
      }
    }
  }

  /** Each address is tried at most once; a failed fetch has tried every candidate that has one. */
  lemma {:induction false} EachTriedOnce(hash: Bytes -> string, expected: string, f: Files, cs: seq<Candidate>,
      tried: seq<Key>, answer: nat -> Attempt)
    requires Distinct(tried)
    ensures var r := TryAll(hash, expected, f, cs, tried, answer);
            && Distinct(r.tried) && tried <= r.tried
            && (forall k :: k in r.tried ==> k in tried || exists c :: c in cs && c.ip != "" && KeyOf(c) == k)
            && (r.source.None? ==> forall c :: c in cs && c.ip != "" ==>
                  (c.ip, c.port) in r.tried || (c.port == 0 && (c.ip, 34567) in r.tried))
    decreases cs
  {
    if cs != [] {
      var c := cs[0];
      assert cs == [c] + cs[1..];
      if c.ip == "" || KeyOf(c) in tried {
        EachTriedOnce(hash, expected, f, cs[1..], tried, answer);
      } else {
        var (g, outcome) := FromPeer(hash, expected, f, answer(|tried|));
        assert Distinct(tried + [KeyOf(c)]);
        if outcome != Ok {
          EachTriedOnce(hash, expected, g, cs[1..], tried + [KeyOf(c)], answer);
          assert KeyOf(c) in tried + [KeyOf(c)];
        }
      }
    }
  }

  // ----- peers that hold one package -----

  /** A peer holding p serves it from the start, or, asked for a range, from there on; the transfer may stop
      anywhere. */
  predicate Honest(p: Bytes, part: Option<Bytes>, r: Reply) {
    r.Body? ==>
      if r.ranged then 0 < Size(part) < |p| && r.received <= p[Size(part)..]
      else r.received <= p
  }

  predicate PartOf(part: Option<Bytes>, p: Bytes) {
    part.Some? ==> part.value <= p
  }

  /** The replies met while trying the candidates are all honest. */
  ghost predicate AllHonest(hash: Bytes -> string, expected: string, p: Bytes, f: Files, cs: seq<Candidate>,
      tried: seq<Key>, answer: nat -> Attempt)
    decreases cs
  {
    if cs == [] then true
    else if cs[0].ip == "" || KeyOf(cs[0]) in tried then AllHonest(hash, expected, p, f, cs[1..], tried, answer)
    else
      var a := answer(|tried|);
      var (g, outcome) := FromPeer(hash, expected, f, a);
      && Honest(p, f.part, a.reply)
      && (outcome != Ok ==> AllHonest(hash, expected, p, g, cs[1..], tried + [KeyOf(cs[0])], answer))
  }

  lemma AppendKeepsPrefix(p: Bytes, part: Bytes, k: Bytes)
    requires part <= p && k <= p[|part|..]
    ensures part + k <= p
  {
    assert p == part + p[|part|..];
    assert p[|part|..] == k + p[|part|..][|k|..];
  }

  lemma HonestPieceKeepsPrefix(p: Bytes, part: Option<Bytes>, r: Reply)
    requires PartOf(part, p) && Honest(p, part, r)
    ensures PartOf(AfterPiece(part, r), p)
    ensures r.Body? && r.ranged ==> part.value <= AfterPiece(part, r).value
  {
    if r.Body? {
      var k := Kept(r);
      assert k <= r.received;
      if r.ranged {
        AppendKeepsPrefix(p, part.value, k);
      } else {
        assert [] + k == k;
      }
    }
  }

  /** Through stalls, restarts and resumes across honest peers the partial file stays a prefix of the package. */
  lemma {:induction false} PartStaysPrefix(hash: Bytes -> string, expected: string, p: Bytes, f: Files,
      cs: seq<Candidate>, tried: seq<Key>, answer: nat -> Attempt)
    requires PartOf(f.part, p) && AllHonest(hash, expected, p, f, cs, tried, answer)
    ensures var r := TryAll(hash, expected, f, cs, tried, answer);
            PartOf(r.files.part, p) && (r.source.Some? ==> r.files.dest.Some? && r.files.dest.value <= p)
    decreases cs
  {
    if cs != [] {
      if cs[0].ip == "" || KeyOf(cs[0]) in tried {
        PartStaysPrefix(hash, expected, p, f, cs[1..], tried, answer);
      } else {
        var a := answer(|tried|);
        var (g, outcome) := FromPeer(hash, expected, f, a);
        HonestPieceKeepsPrefix(p, f.part, a.reply);
        if outcome != Ok {
          PartStaysPrefix(hash, expected, p, g, cs[1..], tried + [KeyOf(cs[0])], answer);
        }
      }
    }
  }

  /** A peer that declares how many bytes it will send declares what is left of the package. */
  predicate Truthful(p: Bytes, part: Option<Bytes>, r: Reply) {
    r.Body? ==> r.declared == if r.ranged then |p| - Size(part) else |p|
  }

  /** From such a peer a transfer counts as complete exactly when it closed with the whole package in the partial file;
      one that closed short counts as stalled. */
  lemma CompleteExactly(p: Bytes, part: Option<Bytes>, r: Reply)
    requires p != [] && PartOf(part, p) && Honest(p, part, r) && Truthful(p, part, r)
    ensures PieceOutcome(r) == Ok <==> r.Body? && r.ending == Closed && AfterPiece(part, r) == Some(p)
    ensures r.Body? && r.ending == Closed && AfterPiece(part, r) != Some(p) ==> PieceOutcome(r) == Stall
  {
    if r.Body? && r.ending == Closed {
      var start := if r.ranged then part.value else [];
      assert start <= p && r.received <= p[|start|..];
      assert p == start + p[|start|..];
      assert |r.received| == r.declared ==> r.received == p[|start|..];
    }
  }

  // ----- when a resume can finish -----

  /** What a node serving p with range support answers in full: all of it, the rest, or 416 when no byte is left. */
  function FullAnswer(p: Bytes, part: Option<Bytes>): Reply {
    var n := Size(part);
    if n == 0 then Body(false, |p|, p, |p|, Closed)
    else if n < |p| then Body(true, |p| - n, p[n..], |p| - n, Closed)
    else Status(416)
  }

  /** Such an answer is honest and truthful. */
  lemma FullAnswerHonest(p: Bytes, part: Option<Bytes>)
    requires PartOf(part, p)
    ensures Honest(p, part, FullAnswer(p, part)) && Truthful(p, part, FullAnswer(p, part))
  {
  }

  /** A peer that answers in full completes the download exactly when the partial file is not already whole. */
  lemma FullAnswerCompletes(hash: Bytes -> string, expected: string, p: Bytes, f: Files)
    requires p != [] && expected != "" && hash(p) == expected && PartOf(f.part, p)
    ensures var (g, outcome) := FromPeer(hash, expected, f, Attempt(FullAnswer(p, f.part), true));
            (outcome == Ok && g == Files(None, Some(p))) <==> Size(f.part) < |p|
  {
    if Size(f.part) == 0 {
      assert [] + p == p;
    } else if Size(f.part) < |p| {
      assert f.part.value + p[Size(f.part)..] == p;
    }
  }

  /** Peers that serve ranges never get past a whole partial file, however many of them answer. */
  lemma {:induction false} WholePartIsStuck(hash: Bytes -> string, expected: string, p: Bytes, f: Files,
      cs: seq<Candidate>, tried: seq<Key>, renames: bool)
    requires p != [] && f.part == Some(p)
    ensures var r := TryAll(hash, expected, f, cs, tried, _ => Attempt(FullAnswer(p, f.part), renames));
            r.source == None && r.files == f
    decreases cs
  {
    if cs != [] {
      WholePartIsStuck(hash, expected, p, f, cs[1..], tried, renames);
      WholePartIsStuck(hash, expected, p, f, cs[1..], tried + [KeyOf(cs[0])], renames);
    }
  }

  /** A stall after the last byte leads there. */
  lemma StallAfterLastByte(hash: Bytes -> string, expected: string, p: Bytes, dest: Option<Bytes>)
    requires p != []
    ensures FromPeer(hash, expected, Files(None, dest), Attempt(Body(false, |p|, p, |p|, Stalled), true))
         == (Files(Some(p), dest), Stall)
  {
    assert [] + p == p;
  }

  /** So does a verified download whose rename fails: the destination is gone and the partial file whole. */
  lemma FailedRenameLeavesWhole(hash: Bytes -> string, expected: string, p: Bytes, f: Files)
    requires p != [] && hash(p) == expected && PartOf(f.part, p) && Size(f.part) < |p|
    ensures FromPeer(hash, expected, f, Attempt(FullAnswer(p, f.part), false)) == (Files(Some(p), None), Failed)
  {
    if Size(f.part) == 0 {
      assert [] + p == p;
    } else {
      assert f.part.value + p[Size(f.part)..] == p;
    }
  }
}
