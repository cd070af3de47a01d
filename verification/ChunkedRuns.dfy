/**
 Whole runs of calls of parse() on one parser, however the stream is cut and the output drained.
 On tidy streams they all decode the stream alike.
 */
module ChunkedRuns {
  import opened ChunkedNumbers
  import opened ChunkedReference
  import opened ChunkedSteps
  import opened ChunkedParser

  /** What one parse() call, given so much output space, does. */
  ghost predicate Called(pre: Snapshot, space: nat, post: Snapshot, emitted: string, thrown: bool) {
    pre.Valid() &&
    var r := ParseCall(pre, space);
    thrown == r.thrown && emitted == r.emitted && (!thrown ==> post == r.post)
  }

  /** A parse() call: the bytes that arrived before it, the space it was given, what it did. */
  datatype Event = Event(arrived: string, space: nat, emitted: string, post: Snapshot, thrown: bool)

  const FRESH := Snapshot(PsChunkSize, 0, 0, Outside, -1, "")

  /** The parser state a run has reached. */
  function Last(run: seq<Event>): Snapshot {
    if run == [] then FRESH else run[|run| - 1].post
  }

  /** Successive calls on one parser; nobody calls a parser that threw. */
  ghost predicate IsRun(run: seq<Event>) {
    run == [] ||
    var before, ev := run[..|run| - 1], run[|run| - 1];
    && IsRun(before)
    && !Thrown(before)
    && Called(Last(before).(input := Last(before).input + ev.arrived), ev.space, ev.post, ev.emitted, ev.thrown)
  }

  predicate Thrown(run: seq<Event>) { run != [] && run[|run| - 1].thrown }

  /** The bytes that arrived over a run. */
  function Stream(run: seq<Event>): string {
    if run == [] then "" else Stream(run[..|run| - 1]) + run[|run| - 1].arrived
  }

  /** The bytes a run has emitted. */
  function Output(run: seq<Event>): string {
    if run == [] then "" else Output(run[..|run| - 1]) + run[|run| - 1].emitted
  }

  /** One more call. */
  lemma OneMore(run: seq<Event>, ev: Event)
    requires IsRun(run) && !Thrown(run)
    requires Called(Last(run).(input := Last(run).input + ev.arrived), ev.space, ev.post, ev.emitted, ev.thrown)
    ensures var r := run + [ev];
            && IsRun(r) && Stream(r) == Stream(run) + ev.arrived && Output(r) == Output(run) + ev.emitted
            && Last(r) == ev.post && Thrown(r) == ev.thrown
  {
    assert (run + [ev])[..|run|] == run;
  }

  /** The last call did not stop for lack of output space. */
  ghost predicate Settled(run: seq<Event>) { Thrown(run) || Last(run).Quiescent() }

  /** The stream is read alike however it is cut; section 4.1 of RFC 7230 allows no other. */
  ghost predicate TidyStream(s: string) { Tidy(START, s) }

  lemma CallKeeps(p: Snapshot, space: nat, more: string)
    requires p.Valid() && TidyFrom(p, more)
    ensures Kept(p, ParseCall(p, space), more)
  {
    ParseKeeps(p, space, p.input == "", more);
  }

  /** A call stays within its space, and stops only without data, without space or at the end. */
  lemma CallRests(p: Snapshot, space: nat)
    requires p.Valid()
    ensures var r := ParseCall(p, space);
            && |r.emitted| <= space && |r.emitted| <= |p.input|
            && (!r.thrown ==> r.post.Valid() && (r.post.Quiescent() || (r.post.step == PsChunkBody && |r.emitted| == space)))
  {
    if p.input == "" { EmptyIsQuiescent(p); }
    ParseRests(p, space, p.input == "");
  }

  /** However a tidy stream is cut and the output drained, the reference decoding is conserved. */
  lemma {:induction false} RunRefines(run: seq<Event>, more: string)
    requires IsRun(run) && TidyStream(Stream(run) + more)
    ensures Thrown(run) ==> Decode(START, Stream(run)).mode == Bad && Decode(START, Stream(run)).out == Output(run)
    ensures !Thrown(run) ==>
              && Last(run).Valid() && TidyFrom(Last(run), more)
              && Decode(START, Stream(run)) == Last(run).Future().(out := Output(run) + Last(run).Future().out)
    decreases |run|
  {
    hide Decode, Tidy, ParseCall;
    if run == [] {
      DecodeNothing(START);
    } else {
      var before, ev := run[..|run| - 1], run[|run| - 1];
      var p := Last(before);
      var q := p.(input := p.input + ev.arrived);
      assert Stream(before) + (ev.arrived + more) == Stream(run) + more;
      RunRefines(before, ev.arrived + more);
      assert p.input + (ev.arrived + more) == q.input + more;
      DecodeConcat(START, Stream(before), ev.arrived);
      Arrive(p, ev.arrived, Output(before));
      CallKeeps(q, ev.space, more);
      CallRests(q, ev.space);
      if ev.thrown {
        assert Output(before) + ev.emitted == Output(run);
      } else {
        Emit(Output(before), ev.emitted, ev.post.Future());
      }
    }
  }

  /** Bytes that arrive are decoded after those still in the input. */
  lemma Arrive(p: Snapshot, bytes: string, out: string)
    ensures var q := p.(input := p.input + bytes);
            Decode(p.Future().(out := out + p.Future().out), bytes) == q.Future().(out := out + q.Future().out)
  {
    hide Decode;
    DecodeConcat(p.Base(), p.input, bytes);
    DecodePrepend(p.Future(), out, bytes);
  }

  lemma Emit(out: string, e: string, d: Decoder)
    ensures d.(out := out + (e + d.out)) == d.(out := out + e + d.out)
  {
    assert out + (e + d.out) == out + e + d.out;
  }

  lemma RunRefinesAll(run: seq<Event>)
    requires IsRun(run) && TidyStream(Stream(run))
    ensures Thrown(run) ==> Decode(START, Stream(run)).mode == Bad && Decode(START, Stream(run)).out == Output(run)
    ensures !Thrown(run) ==>
              && Last(run).Valid()
              && Decode(START, Stream(run)) == Last(run).Future().(out := Output(run) + Last(run).Future().out)
  {
    hide Decode;
    assert Stream(run) + "" == Stream(run);
    RunRefines(run, "");
  }

  /**
   Split invariance.  Two runs over the same tidy bytes, each cut and drained in its own way,
   that do not wait for output space have emitted the same bytes, agree on whether they
   threw, and otherwise have reached the same parser state with the same unparsed input.
   */
  lemma SplitInvariance(r1: seq<Event>, r2: seq<Event>)
    requires IsRun(r1) && IsRun(r2) && Settled(r1) && Settled(r2)
    requires Stream(r1) == Stream(r2) && TidyStream(Stream(r1))
    ensures Output(r1) == Output(r2)
    ensures Thrown(r1) <==> Thrown(r2)
    ensures !Thrown(r1) ==> Last(r1) == Last(r2)
  {
    hide Decode, Tidy, IsRun, Stream, Output;
    RunRefinesAll(r1);
    RunRefinesAll(r2);
    if !Thrown(r1) { QuiescentFuture(Last(r1)); }
    if !Thrown(r2) { QuiescentFuture(Last(r2)); }
    assert Output(r1) + "" == Output(r1) && Output(r2) + "" == Output(r2);
  }

  /** An error is found no matter what follows it, and nothing is emitted past it. */
  lemma ErrorsAreFinal(r1: seq<Event>, r2: seq<Event>)
    requires IsRun(r1) && IsRun(r2) && Thrown(r1) && Settled(r2)
    requires Stream(r1) <= Stream(r2) && TidyStream(Stream(r2))
    ensures Thrown(r2) && Output(r2) == Output(r1)
  {
    hide Decode, Tidy, IsRun, Stream, Output;
    var s, t := Stream(r1), Stream(r2)[|Stream(r1)|..];
    assert Stream(r2) == s + t;
    RunRefines(r1, t);
    RunRefinesAll(r2);
    DecodeConcat(START, s, t);
    DecodeMonotone(Decode(START, s), t);
    if !Thrown(r2) {
      QuiescentFuture(Last(r2));
    }
  }

  /** Output is only ever a prefix of what the whole stream decodes to. */
  lemma OutputIsPrefix(run: seq<Event>, more: string)
    requires IsRun(run) && TidyStream(Stream(run) + more)
    ensures Output(run) <= Decode(START, Stream(run) + more).out
  {
    hide Decode, Tidy, IsRun, Stream, Output;
    RunRefines(run, more);
    DecodeConcat(START, Stream(run), more);
    DecodeMonotone(Decode(START, Stream(run)), more);
  }

  /** A last call with more space than there is input never waits for space. */
  lemma AmpleSpaceSettles(run: seq<Event>)
    requires IsRun(run) && run != []
    requires run[|run| - 1].space > |Last(run[..|run| - 1]).input + run[|run| - 1].arrived|
    ensures Settled(run)
  {
    hide ParseCall;
    var before, ev := run[..|run| - 1], run[|run| - 1];
    CallRests(Last(before).(input := Last(before).input + ev.arrived), ev.space);
  }

  /** Neither does one with more space than a tidy stream can fill. */
  lemma EnoughSpaceSettles(run: seq<Event>)
    requires IsRun(run) && run != [] && TidyStream(Stream(run))
    requires run[|run| - 1].space > |Decode(START, Stream(run)).out|
    ensures Settled(run)
  {
    hide Decode, ParseCall, Tidy;
    var before, ev := run[..|run| - 1], run[|run| - 1];
    CallRests(Last(before).(input := Last(before).input + ev.arrived), ev.space);
    assert Stream(run) + "" == Stream(run);
    OutputIsPrefix(run, "");
  }

  // ---------- clients ----------

  /** One parse() call of a client: the bytes that have arrived and the room in its output buffer. */
  datatype Turn = Turn(arrived: string, room: nat)

  function Arrivals(turns: seq<Turn>): string {
    if turns == [] then "" else Arrivals(turns[..|turns| - 1]) + turns[|turns| - 1].arrived
  }

  /**
   A client that feeds the parser turn by turn into a drained buffer, until the turns run out
   or the parser throws.  What it sees is a run, so all theorems about runs apply to it.
   */
  method Session(turns: seq<Turn>) returns (output: string, thrown: bool, complete: bool, ghost run: seq<Event>)
    ensures IsRun(run) && Output(run) == output && thrown == Thrown(run)
    ensures |run| <= |turns| && Stream(run) == Arrivals(turns[..|run|]) && (|run| == |turns| || thrown)
    ensures !thrown ==> (complete <==> Last(run).step == PsMessageEnd)
    ensures TidyStream(Arrivals(turns)) ==>
              var d := Decode(START, Arrivals(turns)); output <= d.out && (thrown ==> d.mode == Bad && output == d.out)
  {
    hide ParseCall, IsRun, Stream, Output, Decode, Tidy;
    var parser := new ChunkedCodingParser();
    var input := new MemBuf(0);
    output, thrown, complete, run := "", false, false, [];
    NoCalls();
    assert parser.State(input.content) == FRESH;
    assert turns[..0] == [];
    for i := 0 to |turns|
      invariant fresh(parser) && fresh(input) && parser.Valid()
      invariant IsRun(run) && !Thrown(run) && |run| == i && Stream(run) == Arrivals(turns[..i]) && Output(run) == output
      invariant Last(run) == parser.State(input.content) && (complete <==> parser.theStep == PsMessageEnd)
    {
      input.content := input.content + turns[i].arrived;
      var drained := new MemBuf(turns[i].room + 1);
      thrown, complete := parser.Parse(input, drained);
      assert drained.content[0..] == drained.content;
      ghost var ev := Event(turns[i].arrived, turns[i].room, drained.content, parser.State(input.content), thrown);
      OneMore(run, ev);
      run := run + [ev];
      assert turns[..i + 1][..i] == turns[..i];
      output := output + drained.content;
      if thrown {
        RunIsSound(turns, run);
        return;
      }
    }
    assert turns[..|turns|] == turns;
    RunIsSound(turns, run);
  }

  lemma {:induction false} ArrivalsGrow(turns: seq<Turn>, k: nat)
    requires k <= |turns|
    ensures Arrivals(turns[..k]) <= Arrivals(turns)
    decreases |turns|
  {
    if k < |turns| {
      ArrivalsGrow(turns[..|turns| - 1], k);
      assert turns[..|turns| - 1][..k] == turns[..k];
    } else {
      assert turns[..k] == turns;
    }
  }

  /** What a run over the first turns has emitted, when all turns bring a tidy stream. */
  lemma RunIsSound(turns: seq<Turn>, run: seq<Event>)
    requires IsRun(run) && |run| <= |turns| && Stream(run) == Arrivals(turns[..|run|])
    ensures TidyStream(Arrivals(turns)) ==>
              var d := Decode(START, Arrivals(turns));
              Output(run) <= d.out && (Thrown(run) ==> d.mode == Bad && Output(run) == d.out)
  {
    hide IsRun, Stream, Output, Decode, Tidy, Arrivals;
    ArrivalsGrow(turns, |run|);
    var s := Stream(run);
    var more := Arrivals(turns)[|s|..];
    assert s + more == Arrivals(turns);
    if TidyStream(Arrivals(turns)) {
      OutputIsPrefix(run, more);
      RunRefines(run, more);
      DecodeConcat(START, s, more);
      DecodeMonotone(Decode(START, s), more);
    }
  }

  lemma NoCalls()
    ensures IsRun([]) && Stream([]) == "" && Output([]) == ""
  {
  }
}
