/**
 Access-rule checking (Checklist.cc, ACLList::matches in Acl.cc): first-match evaluation of
 allow/deny rules that may suspend on an asynchronous lookup, is resumed at the current rule,
 and may be re-entered by a lookup that completes at once.

 ACLs are an oracle.  Each has a definite verdict; on any evaluation it reports either that
 verdict or that it needs a lookup, as an arbitrary script of environment decisions says.
 */
module Checklist {

  datatype Answer = Denied | Allowed | Dunno | AuthRequired

  /** A definite outcome of an ACL, a node or a rule. */
  datatype Verdict = Match | Mismatch | Except(answer: Answer)

  /** An ACL reference in a rule; positive is false for a negated one. */
  datatype Node = Node(acl: Verdict, positive: bool)

  datatype Rule = Rule(keyword: Answer, nodes: seq<Node>)

  // ---------- the simple specification: no lookups, no suspension ----------

  function NodeVerdict(n: Node): Verdict {
    match n.acl
    case Except(a) => Except(a)
    case Match => if n.positive then Match else Mismatch
    case Mismatch => if n.positive then Mismatch else Match
  }

  /** A rule matches when all its nodes do; the first other verdict decides. */
  function RuleVerdict(nodes: seq<Node>): Verdict {
    if nodes == [] then Match
    else if NodeVerdict(nodes[0]) == Match then RuleVerdict(nodes[1..])
    else NodeVerdict(nodes[0])
  }

  function Negation(keyword: Answer): Answer {
    match keyword
    case Denied => Allowed
    case Allowed => Denied
    case _ => Dunno
  }

  /** The first rule that does not mismatch decides; otherwise the last keyword is reversed. */
  function Decision(rules: seq<Rule>, lastSeen: Answer): Answer {
    if rules == [] then Negation(lastSeen)
    else match RuleVerdict(rules[0].nodes)
         case Match => rules[0].keyword
         case Except(a) => a
         case Mismatch => Decision(rules[1..], rules[0].keyword)
  }

  function RulesAnswer(rules: seq<Rule>): Answer { Decision(rules, Dunno) }

  ghost predicate AllMismatch(rules: seq<Rule>, k: nat)
    requires k <= |rules|
  {
    forall i :: 0 <= i < k ==> RuleVerdict(rules[i].nodes) == Mismatch
  }

  /** Rules that mismatch can be dropped from the front; only the last keyword seen is remembered. */
  lemma {:induction false} DropMismatches(rules: seq<Rule>, lastSeen: Answer, k: nat)
    requires k <= |rules| && AllMismatch(rules, k)
    ensures Decision(rules, lastSeen) == Decision(rules[k..], if k == 0 then lastSeen else rules[k - 1].keyword)
    decreases k
  {
    if k > 0 {
      DropMismatches(rules, lastSeen, k - 1);
      assert rules[k - 1..][1..] == rules[k..];
    } else {
      assert rules[0..] == rules;
    }
  }

  /**
   What the documentation of nonBlockingCheck promises: the first rule that matches gives its
   keyword, an exceptional ACL before that ends the check, no match reverses the last rule's
   keyword, and no rules give DUNNO.
   */
  lemma DecisionIsFirstMatch(rules: seq<Rule>, k: nat)
    requires k <= |rules| && AllMismatch(rules, k)
    ensures k < |rules| && RuleVerdict(rules[k].nodes) == Match ==> RulesAnswer(rules) == rules[k].keyword
    ensures k < |rules| && RuleVerdict(rules[k].nodes).Except? ==> RulesAnswer(rules) == RuleVerdict(rules[k].nodes).answer
    ensures k == |rules| > 0 ==>
              RulesAnswer(rules) == match rules[k - 1].keyword
                                    case Allowed => Denied
                                    case Denied => Allowed
                                    case _ => Dunno
    ensures rules == [] ==> RulesAnswer(rules) == Dunno
  {
    DropMismatches(rules, Dunno, k);
  }

  /** A rule's verdict, position by position. */
  lemma {:induction false} RuleVerdictAt(nodes: seq<Node>, k: nat)
    requires k <= |nodes| && forall i :: 0 <= i < k ==> NodeVerdict(nodes[i]) == Match
    ensures RuleVerdict(nodes) == RuleVerdict(nodes[k..])
    decreases k
  {
    if k > 0 {
      RuleVerdictAt(nodes, k - 1);
      assert nodes[k - 1..][1..] == nodes[k..];
    } else {
      assert nodes[0..] == nodes;
    }
  }

  /** The ACL has a definite answer, and the one that the reference asks for. */
  predicate Satisfied(n: Node) { !n.acl.Except? && (n.acl.Match? <==> n.positive) }

  /** A rule matches exactly when each of its ACLs does if positive, and does not if negated. */
  lemma {:induction false} MatchIffAllSatisfied(nodes: seq<Node>)
    ensures RuleVerdict(nodes) == Match <==> forall i :: 0 <= i < |nodes| ==> Satisfied(nodes[i])
    decreases |nodes|
  {
    if nodes != [] {
      MatchIffAllSatisfied(nodes[1..]);
      assert forall i :: 0 < i < |nodes| ==> nodes[i] == nodes[1..][i - 1];
    }
  }

  /** Otherwise the first ACL that is not as asked for decides: exceptional, or the rule mismatches. */
  lemma FirstUnsatisfied(nodes: seq<Node>, k: nat)
    requires k < |nodes| && !Satisfied(nodes[k]) && forall i :: 0 <= i < k ==> Satisfied(nodes[i])
    ensures RuleVerdict(nodes) == if nodes[k].acl.Except? then nodes[k].acl else Mismatch
  {
    RuleVerdictAt(nodes, k);
  }

  // ---------- the checklist ----------

  /** What starting a lookup leads to. */
  datatype Start = GoesAsync | CompletesAtOnce | EndsCheck

  /** One environment decision, taken when an ACL is evaluated. */
  datatype Env = Ready | NeedsLookup(start: Start)

  predicate Wants(script: seq<Env>) { script != [] && script[0].NeedsLookup? }

  function Rest(script: seq<Env>): seq<Env> { if script == [] then [] else script[1..] }

  /** No ACL ever asks for a lookup. */
  ghost predicate Quiet(script: seq<Env>) { forall i :: 0 <= i < |script| ==> script[i].Ready? }

  /** Whenever a lookup does not go asynchronous, the ACL is definite right after it. */
  ghost predicate Cooperative(script: seq<Env>) {
    forall i :: 0 <= i < |script| - 1 && script[i].NeedsLookup? && !script[i].start.GoesAsync? ==> script[i + 1].Ready?
  }

  // ---------- how a script plays out ----------

  datatype End = Through | Fails | Stops | Suspends | Refused

  /** How far a list of nodes got, and the part of the script not yet played. */
  datatype Pass = Pass(end: End, rest: seq<Env>)

  function Definite(n: Node): End {
    match NodeVerdict(n)
    case Match => Through
    case Mismatch => Fails
    case Except(_) => Stops
  }

  /** A lookup that cannot wait is refused: in a fast check, or when asked for again at once. */
  function PassNode(n: Node, fast: bool, script: seq<Env>): Pass {
    if !Wants(script) then Pass(Definite(n), Rest(script))
    else if fast then Pass(Refused, Rest(script))
    else if script[0].start == GoesAsync then Pass(Suspends, Rest(script))
    else if script[0].start == EndsCheck && n.acl.Except? then Pass(Stops, Rest(script))
    else if Wants(Rest(script)) then Pass(Refused, Rest(Rest(script)))
    else Pass(Definite(n), Rest(Rest(script)))
  }

  function PassNodes(nodes: seq<Node>, fast: bool, script: seq<Env>): (p: Pass)
    ensures |p.rest| <= |script| && (p.end == Suspends ==> |p.rest| < |script|)
  {
    if nodes == [] then Pass(Through, script)
    else
      var p := PassNode(nodes[0], fast, script);
      if p.end == Through then PassNodes(nodes[1..], fast, p.rest) else p
  }

  /** Whether a check of the rules meets a refused lookup; a suspended rule is checked afresh. */
  predicate IsRefused(rules: seq<Rule>, fast: bool, script: seq<Env>)
    decreases |rules|, |script|
  {
    rules != [] &&
    var p := PassNodes(rules[0].nodes, fast, script);
    match p.end
    case Refused => true
    case Suspends => IsRefused(rules, fast, p.rest)
    case Fails => IsRefused(rules[1..], fast, p.rest)
    case _ => false
  }

  lemma RefusedStep(rules: seq<Rule>, k: nat, fast: bool, script: seq<Env>)
    requires k < |rules|
    ensures var p := PassNodes(rules[k].nodes, fast, script);
            IsRefused(rules[k..], fast, script) ==
            match p.end
            case Refused => true
            case Suspends => IsRefused(rules[k..], fast, p.rest)
            case Fails => IsRefused(rules[k + 1..], fast, p.rest)
            case _ => false
  {
    assert rules[k..][1..] == rules[k + 1..];
  }

  lemma NoneRefused(rules: seq<Rule>, script: seq<Env>)
    ensures !IsRefused(rules[|rules|..], false, script)
  {
    assert rules[|rules|..] == [];
  }

  lemma CooperativeRest(s: seq<Env>)
    requires Cooperative(s)
    ensures Cooperative(Rest(s))
    ensures Wants(s) && !s[0].start.GoesAsync? ==> !Wants(Rest(s))
  {
    if s != [] {
      forall i | 0 <= i < |s| - 2 && s[1..][i].NeedsLookup? && !s[1..][i].start.GoesAsync? ensures s[1..][i + 1].Ready? {
        assert s[i + 1].NeedsLookup?;
      }
      if |s| > 1 && Wants(s) && !s[0].start.GoesAsync? { assert s[0 + 1].Ready?; }
    }
  }

  lemma {:induction false} CooperativePass(nodes: seq<Node>, script: seq<Env>)
    requires Cooperative(script)
    ensures PassNodes(nodes, false, script).end != Refused && Cooperative(PassNodes(nodes, false, script).rest)
    decreases |nodes|
  {
    CooperativeRest(script);
    CooperativeRest(Rest(script));
    if nodes != [] {
      var p := PassNode(nodes[0], false, script);
      if p.end == Through { CooperativePass(nodes[1..], p.rest); }
    }
  }

  /** ACLs that are definite after a lookup that did not wait are never refused. */
  lemma {:induction false} CooperativeNeverRefused(rules: seq<Rule>, script: seq<Env>)
    requires Cooperative(script)
    ensures !IsRefused(rules, false, script)
    decreases |rules|, |script|
  {
    if rules != [] {
      CooperativePass(rules[0].nodes, script);
      var p := PassNodes(rules[0].nodes, false, script);
      if p.end == Suspends { CooperativeNeverRefused(rules, p.rest); }
      if p.end == Fails { CooperativeNeverRefused(rules[1..], p.rest); }
    }
  }

  lemma {:induction false} QuietPass(nodes: seq<Node>, script: seq<Env>)
    requires Quiet(script)
    ensures PassNodes(nodes, true, script).end != Refused && Quiet(PassNodes(nodes, true, script).rest)
    ensures PassNodes(nodes, true, script).end != Suspends
    decreases |nodes|
  {
    if nodes != [] {
      var p := PassNode(nodes[0], true, script);
      if p.end == Through { QuietPass(nodes[1..], p.rest); }
    }
  }

  /** A fast check in which no lookup is needed is never refused. */
  lemma {:induction false} QuietNeverRefused(rules: seq<Rule>, script: seq<Env>)
    requires Quiet(script)
    ensures !IsRefused(rules, true, script)
    decreases |rules|
  {
    if rules != [] {
      QuietPass(rules[0].nodes, script);
      var p := PassNodes(rules[0].nodes, true, script);
      if p.end == Fails { QuietNeverRefused(rules[1..], p.rest); }
    }
  }

  // ---------- for which scripts no rules are refused ----------

  function Matching(n: nat): seq<Node> { seq(n, _ => Node(Match, true)) }

  /** The answer is the specified one although refused lookups give DUNNO. */
  predicate AsSpecified(rules: seq<Rule>, fast: bool, script: seq<Env>) {
    (if IsRefused(rules, fast, script) then Dunno else RulesAnswer(rules)) == RulesAnswer(rules)
  }

  lemma MatchingMatches(n: nat)
    ensures RulesAnswer([Rule(Allowed, Matching(n))]) == Allowed
  {
    RuleVerdictAt(Matching(n), n);
  }

  /** A matching node is passed unless the lookup it wants stops it. */
  lemma MatchingStep(n: nat, fast: bool, script: seq<Env>)
    requires n > 0
    ensures var p := PassNodes(Matching(n), fast, script);
            if !Wants(script) then p == PassNodes(Matching(n - 1), fast, Rest(script))
            else if fast then p.end == Refused
            else if script[0].start.GoesAsync? then p == Pass(Suspends, Rest(script))
            else if Wants(Rest(script)) then p.end == Refused
            else p == PassNodes(Matching(n - 1), fast, Rest(Rest(script)))
  {
    assert Matching(n)[1..] == Matching(n - 1);
  }

  /** Enough matching nodes get to the first ACL that is not definite when it has to be. */
  lemma {:induction false} OffencePass(n: nat, script: seq<Env>)
    requires !Cooperative(script) && |script| <= n
    ensures var p := PassNodes(Matching(n), false, script);
            p.end == Refused || (p.end == Suspends && !Cooperative(p.rest))
    decreases |script|
  {
    hide PassNodes, Matching, Cooperative;
    OffenceNeedsScript(script);
    MatchingStep(n, false, script);
    var s1 := Rest(script);
    if Cooperative(s1) {
      OffenceFirst(script);
    } else if !Wants(script) {
      OffencePass(n - 1, s1);
    } else if !script[0].start.GoesAsync? && !Wants(s1) {
      if Cooperative(Rest(s1)) { OffenceFirst(s1); }
      OffencePass(n - 1, Rest(s1));
    }
  }

  lemma OffenceNeedsScript(script: seq<Env>)
    ensures Cooperative(script) || script != []
  {
  }

  /** An offence is the first decision with the next one, or comes later. */
  lemma OffenceFirst(script: seq<Env>)
    requires Cooperative(Rest(script))
    ensures Cooperative(script) || (Wants(script) && !script[0].start.GoesAsync? && Wants(Rest(script)))
  {
    if !(Wants(script) && !script[0].start.GoesAsync? && Wants(Rest(script))) {
      forall i | 0 <= i < |script| - 1 && script[i].NeedsLookup? && !script[i].start.GoesAsync? ensures script[i + 1].Ready? {
        if i > 0 { assert script[1..][i - 1] == script[i] && script[1..][i - 1 + 1] == script[i + 1]; }
      }
    }
  }

  /** A script that offends is refused by one rule of matching nodes, which costs that rule its answer. */
  lemma {:induction false} OffenceIsRefused(n: nat, script: seq<Env>)
    requires !Cooperative(script) && |script| <= n
    ensures IsRefused([Rule(Allowed, Matching(n))], false, script)
    decreases |script|
  {
    hide PassNodes, Matching, Cooperative;
    OffencePass(n, script);
    var p := PassNodes(Matching(n), false, script);
    if p.end == Suspends { OffenceIsRefused(n, p.rest); }
  }

  /**
   No rules at all are refused a lookup, and all get the specified answer, exactly when ACLs are
   definite after a lookup that did not wait.
   */
  lemma NeverRefusedIffCooperative(script: seq<Env>)
    ensures (forall rules :: !IsRefused(rules, false, script)) <==> Cooperative(script)
    ensures (forall rules :: AsSpecified(rules, false, script)) <==> Cooperative(script)
  {
    hide IsRefused, Cooperative, Matching, RulesAnswer;
    if Cooperative(script) {
      forall rules ensures !IsRefused(rules, false, script) && AsSpecified(rules, false, script) {
        CooperativeNeverRefused(rules, script);
      }
    } else {
      var rules := [Rule(Allowed, Matching(|script|))];
      OffenceIsRefused(|script|, script);
      MatchingMatches(|script|);
      assert !AsSpecified(rules, false, script);
    }
  }

  lemma LookupInScript(script: seq<Env>)
    ensures Quiet(script) || (script != [] && (Quiet(Rest(script)) ==> Wants(script)))
  {
    if script != [] && Quiet(script[1..]) && script[0].Ready? {
      forall i | 0 <= i < |script| ensures script[i].Ready? {
        if i > 0 { assert script[1..][i - 1] == script[i]; }
      }
    }
  }

  lemma {:induction false} LookupPass(n: nat, script: seq<Env>)
    requires !Quiet(script) && |script| <= n
    ensures PassNodes(Matching(n), true, script).end == Refused
    decreases |script|
  {
    hide PassNodes, Matching, Quiet;
    LookupInScript(script);
    MatchingStep(n, true, script);
    if !Wants(script) {
      LookupPass(n - 1, Rest(script));
    }
  }

  lemma LookupIsRefused(n: nat, script: seq<Env>)
    requires !Quiet(script) && |script| <= n
    ensures IsRefused([Rule(Allowed, Matching(n))], true, script)
  {
    hide PassNodes, Quiet, Matching;
    LookupPass(n, script);
  }

  /** No fast check is refused a lookup, and all give the specified answer, exactly when no ACL needs one. */
  lemma NeverRefusedIffQuiet(script: seq<Env>)
    ensures (forall rules :: !IsRefused(rules, true, script)) <==> Quiet(script)
    ensures (forall rules :: AsSpecified(rules, true, script)) <==> Quiet(script)
  {
    hide IsRefused, Quiet, Matching, RulesAnswer;
    if Quiet(script) {
      forall rules ensures !IsRefused(rules, true, script) && AsSpecified(rules, true, script) {
        QuietNeverRefused(rules, script);
      }
    } else {
      var rules := [Rule(Allowed, Matching(|script|))];
      LookupIsRefused(|script|, script);
      MatchingMatches(|script|);
      assert !AsSpecified(rules, true, script);
    }
  }

  /** An ACL that asks again right after its lookup completed costs a matching rule its answer. */
  lemma RefusedExample()
    ensures var rules := [Rule(Allowed, [Node(Match, true)])];
            var script := [NeedsLookup(CompletesAtOnce), NeedsLookup(GoesAsync)];
            IsRefused(rules, false, script) && RulesAnswer(rules) == Allowed
  {
    var rules := [Rule(Allowed, [Node(Match, true)])];
    var script := [NeedsLookup(CompletesAtOnce), NeedsLookup(GoesAsync)];
    assert Rest(script) == [NeedsLookup(GoesAsync)];
    assert PassNodes(rules[0].nodes, false, script).end == Refused;
  }

  /** In these upsets, before the first n completions, the caller does not go away; the rules are not freed. */
  ghost predicate CallerStays(upsets: seq<(bool, bool)>, n: nat) {
    forall k :: 0 <= k < n && k < |upsets| ==> !upsets[k].0
  }

  ghost predicate RulesStay(upsets: seq<(bool, bool)>, n: nat) {
    forall k :: 0 <= k < n && k < |upsets| ==> !upsets[k].1
  }

  lemma StayStep(upsets: seq<(bool, bool)>, n: nat)
    ensures CallerStays(upsets, 0) && RulesStay(upsets, 0)
    ensures CallerStays(upsets, n + 1) <==> CallerStays(upsets, n) && (n < |upsets| ==> !upsets[n].0)
    ensures RulesStay(upsets, n + 1) <==> RulesStay(upsets, n) && (n < |upsets| ==> !upsets[n].1)
  {
  }

  datatype NodeMatchingResult = NmrMatch | NmrMismatch | NmrFinished | NmrNeedsAsync

  class AclChecklist {
    const rules: seq<Rule>
    var pos: nat            // accessList: the current rule; |rules| stands for NULL
    var callback: bool      // callback != NULL
    var callerValid: bool   // cbdataReferenceValid(callback_data)
    var listValid: bool     // cbdataReferenceValid(accessList)
    var async: bool
    var finished: bool
    var allow: Answer
    var lookup: bool        // state_ != NullState::Instance()
    var checking: bool
    var destroyed: bool
    var delivered: seq<Answer>   // the callbacks made
    var script: seq<Env>         // what the environment will decide
    var start: Start             // how the lookup now needed will go
    ghost var prohibited: bool   // an ACL wanted a lookup where none was possible any more

    constructor (rules: seq<Rule>, script: seq<Env>)
      ensures this.rules == rules && this.script == script && Idle() && delivered == [] && pos == 0
      ensures callerValid && listValid && !callback && !checking
    {
      this.rules, this.script := rules, script;
      pos, callback, callerValid, listValid := 0, false, true, true;
      async, finished, allow, lookup, checking := false, false, Denied, false, false;
      destroyed, delivered, start, prohibited := false, [], CompletesAtOnce, false;
    }

    /** Neither finished nor waiting nor about to wait. */
    ghost predicate Idle()
      reads this
    {
      !destroyed && !async && !finished && !lookup && !prohibited && pos <= |rules|
    }

    /** Waiting for a lookup at rule pos; all rules before it mismatched. */
    ghost predicate Suspended()
      reads this
    {
      && !destroyed && async && lookup && !finished && !prohibited && callback && !checking
      && pos < |rules| && AllMismatch(rules, pos)
    }

    /** The part of the state that evaluating nodes leaves alone. */
    twostate predicate SameControl()
      reads this
    {
      && pos == old(pos) && callback == old(callback) && callerValid == old(callerValid)
      && listValid == old(listValid) && checking == old(checking) && destroyed == old(destroyed)
      && delivered == old(delivered)
    }

    method SetAsyncInProgress(newAsync: bool)
      requires !finished && !(async && newAsync)
      modifies `async
      ensures async == newAsync
    {
      async := newAsync;
    }

    method MarkFinished(answer: Answer)
      requires !finished && !async
      modifies `finished, `allow
      ensures finished && allow == answer
    {
      finished, allow := true, answer;
    }

    method ChangeState(newLookup: bool)
      requires !lookup || !newLookup
      modifies `lookup
      ensures lookup == newLookup
    {
      lookup := newLookup;
    }

    /** ACL::match as the contract of ACLs has it: 1 on a match, which is never exceptional. */
    method AclMatch(acl: Verdict) returns (rv: int)
      requires Idle()
      modifies `finished, `allow, `lookup, `script, `start
      ensures !(finished && lookup)
      ensures lookup ==> rv != 1 && Wants(old(script)) && start == old(script)[0].start
      ensures !lookup ==> (rv == 1 <==> acl == Match) && (finished <==> acl.Except?) && (finished ==> allow == acl.answer)
      ensures script == Rest(old(script)) && (lookup <==> Wants(old(script)))
    {
      if script != [] {
        var e := script[0];
        script := script[1..];
        if e.NeedsLookup? {
          start := e.start;
          ChangeState(true);
          return 0;
        }
      }
      match acl
      case Match => rv := 1;
      case Mismatch => rv := 0;
      case Except(a) => MarkFinished(a); rv := 0;
    }

    /** ACLList::matches: negation applies to definite answers only. */
    method NodeMatches(node: Node) returns (result: bool)
      requires Idle()
      modifies `finished, `allow, `lookup, `script, `start
      ensures !(finished && lookup)
      ensures lookup ==> !result && Wants(old(script)) && start == old(script)[0].start
      ensures !lookup ==> (result <==> NodeVerdict(node) == Match)
      ensures !lookup && node.acl == Match ==> result == node.positive && !finished
      ensures !lookup && node.acl == Mismatch ==> result == !node.positive && !finished
      ensures !lookup && node.acl.Except? ==> !result && finished && allow == node.acl.answer
      ensures !lookup ==> (finished <==> NodeVerdict(node).Except?) && (finished ==> NodeVerdict(node) == Except(allow))
      ensures script == Rest(old(script)) && (lookup <==> Wants(old(script)))
    {
      var rv := AclMatch(node.acl);
      if rv == 1 {
        result := node.positive;
      } else if finished {
        result := false;
      } else if lookup {
        result := false;
      } else {
        result := !node.positive;
      }
    }

    method MatchNode(node: Node, fast: bool) returns (r: NodeMatchingResult)
      requires Idle()
      modifies `finished, `allow, `lookup, `script, `start, `prohibited
      ensures r == NmrMatch ==> Idle() && NodeVerdict(node) == Match
      ensures r == NmrMismatch ==> Idle() && NodeVerdict(node) == Mismatch
      ensures r == NmrFinished ==> finished && !lookup && !async &&
                                   (if prohibited then allow == Dunno && fast else NodeVerdict(node) == Except(allow))
      ensures r == NmrNeedsAsync ==> !fast && lookup && !finished && !prohibited &&
                                     Wants(old(script)) && start == old(script)[0].start
      ensures script == Rest(old(script))
      ensures prohibited <==> fast && Wants(old(script))
      ensures r == NmrNeedsAsync <==> !fast && Wants(old(script))
    {
      var nodeMatched := NodeMatches(node);
      var needsAsync, matchFinished := lookup, finished;
      if nodeMatched {
        assert !needsAsync && !matchFinished;
        return NmrMatch;
      }
      if matchFinished {
        assert !needsAsync;
        return NmrFinished;
      }
      if !needsAsync {
        return NmrMismatch;
      }
      if fast {
        ChangeState(false);
        MarkFinished(Dunno);
        prohibited := true;
        return NmrFinished;
      }
      r := NmrNeedsAsync;
    }

    /**
     Starts the lookup.  A lookup that completes at once calls back into this very checklist
     while it is checking; that call must not disturb anything.
     */
    method CheckForAsync(node: Node)
      requires !destroyed && lookup && !async && !finished && !prohibited && checking
      requires pos <= |rules| && callback
      modifies this
      ensures SameControl() && !prohibited && script == old(script)
      ensures async <==> old(start) == GoesAsync
      ensures finished <==> old(start) == EndsCheck && node.acl.Except?
      ensures async ==> lookup && !finished
      ensures !async ==> !lookup && (finished ==> NodeVerdict(node) == Except(allow))
      ensures NodeVerdict(node).Except? <==> node.acl.Except?
      decreases 1
    {
      if start == GoesAsync {
        SetAsyncInProgress(true);
      } else if start == EndsCheck && node.acl.Except? {
        ChangeState(false);
        MarkFinished(node.acl.answer);
      } else {
        SetAsyncInProgress(true);
        LookupDone();
      }
    }

    /** The completion handler of a lookup. */
    method LookupDone()
      requires !destroyed && async && lookup && !finished && !prohibited && callback && pos <= |rules|
      requires checking || Suspended()
      modifies this
      ensures old(checking) ==> SameControl() && Idle() && script == old(script)
      ensures !old(checking) ==> Outcome()
      ensures !old(checking) ==> |script| <= |old(script)| && (!destroyed ==> |script| < |old(script)|)
      decreases if checking then 0 else 6, 1
    {
      SetAsyncInProgress(false);
      ChangeState(false);
      MatchNonBlocking();
    }

    /** One round of the matchNodes loop: true to go on with the next node. */
    method TryNode(node: Node, fast: bool) returns (goOn: bool)
      requires Idle() && (fast || (checking && callback))
      modifies this
      ensures SameControl()
      ensures goOn ==> Idle() && NodeVerdict(node) == Match
      ensures !goOn && !finished && !async ==> Idle() && NodeVerdict(node) == Mismatch
      ensures finished ==> !goOn && !async && !lookup &&
                           if prohibited then allow == Dunno else NodeVerdict(node) == Except(allow)
      ensures async ==> !goOn && !finished && lookup && !prohibited && !fast
      ensures var p := PassNode(node, fast, old(script));
              script == p.rest && (goOn <==> p.end == Through) && (async <==> p.end == Suspends) &&
              (prohibited <==> p.end == Refused) && (finished <==> p.end == Stops || p.end == Refused)
      decreases 2
    {
      var resultBeforeAsync := MatchNode(node, fast);
      if resultBeforeAsync == NmrMatch {
        return true;
      }
      if resultBeforeAsync == NmrMismatch || resultBeforeAsync == NmrFinished {
        return false;
      }
      assert resultBeforeAsync == NmrNeedsAsync;
      CheckForAsync(node);
      if !async {
        if finished {
          return false;
        }
        var resultAfterAsync := MatchNode(node, true);
        assert resultAfterAsync != NmrNeedsAsync;
        if resultAfterAsync == NmrMatch {
          return true;
        }
        assert resultAfterAsync == NmrMismatch || resultAfterAsync == NmrFinished;
        return false;
      }
      assert !finished;
      return false;
    }

    method MatchNodes(nodes: seq<Node>, fast: bool) returns (matched: bool)
      requires Idle() && (fast || (checking && callback))
      modifies this
      ensures SameControl()
      ensures matched ==> Idle() && RuleVerdict(nodes) == Match
      ensures !matched && !finished && !async ==> Idle() && RuleVerdict(nodes) == Mismatch
      ensures finished ==> !matched && !async && !lookup &&
                           if prohibited then allow == Dunno else RuleVerdict(nodes) == Except(allow)
      ensures async ==> !matched && !finished && lookup && !prohibited && !fast
      ensures var p := PassNodes(nodes, fast, old(script));
              script == p.rest && (matched <==> p.end == Through) && (async <==> p.end == Suspends) &&
              (prohibited <==> p.end == Refused) && (finished <==> p.end == Stops || p.end == Refused)
      decreases 3
    {
      hide PassNode, NodeVerdict;
      assert nodes[0..] == nodes;
      for i := 0 to |nodes|
        invariant Idle() && SameControl() && PassNodes(nodes[i..], fast, script) == PassNodes(nodes, fast, old(script))
        invariant forall j :: 0 <= j < i ==> NodeVerdict(nodes[j]) == Match
      {
        assert nodes[i..][1..] == nodes[i + 1..];
        RuleVerdictAt(nodes, i);
        var goOn := TryNode(nodes[i], fast);
        if !goOn {
          return false;
        }
      }
      RuleVerdictAt(nodes, |nodes|);
      matched := true;
    }

    method CheckAccessList()
      requires Idle() && pos < |rules| && checking && callback
      modifies this
      ensures SameControl()
      ensures !finished && !async ==> Idle() && RuleVerdict(rules[pos].nodes) == Mismatch
      ensures finished ==> !async && !lookup &&
                           if prohibited then allow == Dunno
                           else match RuleVerdict(rules[pos].nodes)
                                case Match => allow == rules[pos].keyword
                                case Except(a) => allow == a
                                case Mismatch => false
      ensures async ==> !finished && lookup && !prohibited
      ensures var p := PassNodes(rules[pos].nodes, false, old(script));
              script == p.rest && (async <==> p.end == Suspends) && (prohibited <==> p.end == Refused) &&
              (finished <==> p.end != Suspends && p.end != Fails)
      decreases 4
    {
      var matched := MatchNodes(rules[pos].nodes, false);
      if matched {
        MarkFinished(rules[pos].keyword);
      }
    }

    method CalcImplicitAnswer(lastSeen: Answer)
      requires !finished && !async
      modifies `finished, `allow
      ensures finished && allow == Negation(lastSeen)
      ensures allow == if lastSeen == Allowed then Denied else if lastSeen == Denied then Allowed else Dunno
    {
      var implicitRuleAnswer := Dunno;
      if lastSeen == Denied {
        implicitRuleAnswer := Allowed;
      } else if lastSeen == Allowed {
        implicitRuleAnswer := Denied;
      }
      MarkFinished(implicitRuleAnswer);
    }

    /** Calls back at most once, then destroys the checklist, which must not be waiting. */
    method CheckCallback(answer: Answer)
      requires !destroyed && callback && !async
      modifies `callback, `delivered, `destroyed
      ensures destroyed && !callback
      ensures delivered == if callerValid then old(delivered) + [answer] else old(delivered)
    {
      callback := false;
      if callerValid {
        delivered := delivered + [answer];
      }
      destroyed := true;
    }

    /** The answer due: that of the simple specification, unless the check could not be carried out. */
    ghost function Due(): Answer
      reads this
    {
      if prohibited || !listValid then Dunno else RulesAnswer(rules)
    }

    /** How a check that was run or resumed comes to rest. */
    twostate predicate Outcome()
      requires old(pos) <= |rules|
      reads this
    {
      && pos <= |rules| && callerValid == old(callerValid) && listValid == old(listValid)
      && (callerValid && listValid ==>
            if destroyed then prohibited <==> IsRefused(rules[old(pos)..], false, old(script))
            else IsRefused(rules[pos..], false, script) <==> IsRefused(rules[old(pos)..], false, old(script)))
      && if destroyed then !async && !callback && delivered == if callerValid then old(delivered) + [Due()] else old(delivered)
         else Suspended() && delivered == old(delivered)
    }

    /** The rule loop of matchNonBlocking, from the current rule on. */
    method CheckRules()
      requires Idle() && callback && !checking && callerValid
      requires pos < |rules| && AllMismatch(rules, pos)
      modifies this
      ensures Outcome()
      ensures |script| <= |old(script)| && (!destroyed ==> |script| < |old(script)|)
      decreases 5
    {
      hide PassNodes, RuleVerdict, Decision, IsRefused;
      var lastSeenKeyword := Dunno;
      ghost var first := pos;
      while pos < |rules|
        invariant first <= pos <= |rules|
        invariant Idle() && callback && !checking && AllMismatch(rules, pos)
        invariant callerValid && listValid == old(listValid) && delivered == old(delivered)
        invariant pos > first ==> listValid && lastSeenKeyword == rules[pos - 1].keyword
        invariant |script| <= |old(script)|
        invariant listValid ==> (IsRefused(rules[pos..], false, script) <==> IsRefused(rules[old(pos)..], false, old(script)))
        decreases |rules| - pos
      {
        if !listValid {
          pos := |rules|;
          CheckCallback(Dunno);
          return;
        }
        RefusedStep(rules, pos, false, script);
        DecisionIsFirstMatch(rules, pos);
        checking := true;
        CheckAccessList();
        checking := false;
        if async {
          return;
        }
        if finished {
          pos := |rules|;
          CheckCallback(allow);
          return;
        }
        lastSeenKeyword := rules[pos].keyword;
        pos := pos + 1;
      }
      DecisionIsFirstMatch(rules, pos);
      NoneRefused(rules, script);
      CalcImplicitAnswer(lastSeenKeyword);
      CheckCallback(allow);
    }

    method MatchNonBlocking()
      requires Idle() && callback
      requires checking || (AllMismatch(rules, pos) && (rules == [] || pos < |rules|))
      modifies this
      ensures old(checking) ==> SameControl() && Idle() && script == old(script)
      ensures !old(checking) ==> Outcome()
      ensures !old(checking) ==> |script| <= |old(script)| && (!destroyed ==> |script| < |old(script)|)
      decreases if checking then 0 else 6, 0
    {
      if checking {
        return;
      }
      if !callerValid {
        CheckCallback(Dunno);
        return;
      }
      if pos == |rules| {
        CheckCallback(Dunno);
        return;
      }
      CheckRules();
    }

    method NonBlockingCheck()
      requires Idle() && !checking && pos == 0
      modifies this
      ensures Outcome()
      ensures |script| <= |old(script)| && (!destroyed ==> |script| < |old(script)|)
      decreases 7
    {
      finished := false;
      callback := true;
      MatchNonBlocking();
    }

    /**
     A whole check: the rules are started, and lookups complete one after another until none is
     outstanding.  Before each completion the caller may go away and the rules may be freed
     (upsets).  For every script of ACL behaviour the check ends with exactly one callback, or
     none if the caller went away.
     */
    method RunCheck(upsets: seq<(bool, bool)>) returns (completions: nat)
      requires Idle() && !checking && pos == 0 && callerValid && listValid && delivered == []
      modifies this
      ensures destroyed && !async && !callback
      ensures delivered == if !callerValid then [] else [if prohibited || !listValid then Dunno else RulesAnswer(rules)]
      ensures callerValid <==> CallerStays(upsets, completions)
      ensures listValid <==> RulesStay(upsets, completions)
      ensures callerValid && listValid ==> (prohibited <==> IsRefused(rules, false, old(script)))
    {
      hide CallerStays, RulesStay, IsRefused, RulesAnswer, AllMismatch;
      assert rules[0..] == rules;
      StayStep(upsets, 0);
      NonBlockingCheck();
      completions := 0;
      while !destroyed
        invariant destroyed ==> !async && !callback
        invariant !destroyed ==> Suspended()
        invariant delivered == if destroyed && callerValid then [Due()] else []
        invariant callerValid <==> CallerStays(upsets, completions)
        invariant listValid <==> RulesStay(upsets, completions)
        invariant callerValid && listValid ==>
                    if destroyed then prohibited <==> IsRefused(rules, false, old(script))
                    else IsRefused(rules[pos..], false, script) <==> IsRefused(rules, false, old(script))
        decreases !destroyed, |script|
      {
        StayStep(upsets, completions);
        if completions < |upsets| {
          callerValid := callerValid && !upsets[completions].0;
          listValid := listValid && !upsets[completions].1;
        }
        completions := completions + 1;
        LookupDone();
      }
    }

    /** Checks the rules with slow lookups prohibited. */
    method FastCheck() returns (answer: Answer)
      requires Idle() && pos == 0
      modifies this
      ensures SameControl() && finished
      ensures answer == allow == if prohibited || !listValid then Dunno else RulesAnswer(rules)
      ensures listValid ==> (prohibited <==> IsRefused(rules, true, old(script)))
    {
      hide PassNodes, RuleVerdict, Decision;
      assert rules[0..] == rules;
      finished := false;
      var lastSeenKeyword := Dunno;
      var acl := 0;
      while acl < |rules| && listValid
        invariant 0 <= acl <= |rules|
        invariant Idle() && SameControl() && AllMismatch(rules, acl)
        invariant listValid ==> (IsRefused(rules[acl..], true, script) <==> IsRefused(rules, true, old(script)))
        invariant lastSeenKeyword == if acl == 0 then Dunno else rules[acl - 1].keyword
        invariant acl > 0 ==> listValid
      {
        assert rules[acl..][0] == rules[acl] && rules[acl..][1..] == rules[acl + 1..];
        var matched := MatchNodes(rules[acl].nodes, true);
        if matched {
          MarkFinished(rules[acl].keyword);
        }
        if finished {
          DecisionIsFirstMatch(rules, acl);
          return allow;
        }
        lastSeenKeyword := rules[acl].keyword;
        acl := acl + 1;
      }
      DecisionIsFirstMatch(rules, acl);
      CalcImplicitAnswer(lastSeenKeyword);
      answer := allow;
    }

    /** Checks one ACL list that has no keyword. */
    method FastCheckList(nodes: seq<Node>) returns (answer: Answer)
      requires Idle()
      modifies this
      ensures SameControl() && finished
      ensures answer == allow ==
              if prohibited then Dunno
              else match RuleVerdict(nodes) case Match => Allowed case Mismatch => Denied case Except(a) => a
      ensures prohibited <==> PassNodes(nodes, true, old(script)).end == Refused
    {
      finished := false;
      var matched := MatchNodes(nodes, true);
      if matched {
        MarkFinished(Allowed);
      } else if !finished {
        MarkFinished(Denied);
      }
      answer := allow;
    }
  }

  /** The check of RefusedExample, carried out: the matching allow rule ends in DUNNO. */
  method RefusedCheck() returns (c: AclChecklist)
    ensures fresh(c) && RulesAnswer(c.rules) == Allowed && c.callerValid && c.listValid && c.delivered == [Dunno]
  {
    RefusedExample();
    c := new AclChecklist([Rule(Allowed, [Node(Match, true)])], [NeedsLookup(CompletesAtOnce), NeedsLookup(GoesAsync)]);
    var completions := c.RunCheck([]);
  }
}
