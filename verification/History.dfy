/** The longest suffix of a list that fits some limits, and why it can be kept up incrementally. */
module Suffixes {

  // Whatever fits still fits without its first or without its last element; nothing fits.
  ghost predicate Shrinkable<T(!new)>(fits: seq<T> -> bool) {
    && fits([])
    && (forall s: seq<T> :: s != [] && fits(s) ==> fits(s[1..]))
    && (forall s: seq<T> :: s != [] && fits(s) ==> fits(s[..|s| - 1]))
  }

  ghost predicate IsLongest<T>(fits: seq<T> -> bool, all: seq<T>, s: seq<T>) {
    exists k :: 0 <= k <= |all| && s == all[k..] && fits(s) && forall j :: 0 <= j < k ==> !fits(all[j..])
  }

  ghost function Longest<T>(fits: seq<T> -> bool, all: seq<T>): seq<T>
    requires fits([])
  {
    if fits(all) then all else Longest(fits, all[1..])
  }

  lemma {:induction false} LongestFacts<T>(fits: seq<T> -> bool, all: seq<T>)
    requires fits([])
    ensures var s := Longest(fits, all);
            && |s| <= |all| && s == all[|all| - |s|..] && fits(s)
            && forall j :: 0 <= j < |all| - |s| ==> !fits(all[j..])
  {
    if fits(all) {
      assert all[0..] == all;
    } else {
      LongestFacts(fits, all[1..]);
      var s := Longest(fits, all[1..]);
      assert all[0..] == all;
      forall j | 0 <= j < |all| - |s|
        ensures !fits(all[j..])
      {
        if j > 0 { assert all[1..][j - 1..] == all[j..]; }
      }
    }
  }

  lemma LongestIsLongest<T>(fits: seq<T> -> bool, all: seq<T>, s: seq<T>)
    requires fits([])
    ensures IsLongest(fits, all, s) <==> s == Longest(fits, all)
  {
    LongestFacts(fits, all);
    var l := Longest(fits, all);
    if IsLongest(fits, all, s) {
      var k :| 0 <= k <= |all| && s == all[k..] && fits(s) && forall j :: 0 <= j < k ==> !fits(all[j..]);
      assert l == all[|all| - |l|..];
    }
  }

  lemma {:induction false} SuffixFits<T(!new)>(fits: seq<T> -> bool, s: seq<T>, k: nat)
    requires Shrinkable(fits) && k <= |s| && fits(s)
    ensures fits(s[k..])
  {
    if k > 0 {
      SuffixFits(fits, s[1..], k - 1);
      assert s[1..][k - 1..] == s[k..];
    }
  }

  lemma LongerFitsNeither<T(!new)>(fits: seq<T> -> bool, s: seq<T>, i: nat, j: nat)
    requires Shrinkable(fits) && j <= i <= |s| && !fits(s[i..])
    ensures !fits(s[j..])
  {
    assert s[j..][i - j..] == s[i..];
    if fits(s[j..]) { SuffixFits(fits, s[j..], i - j); }
  }

  lemma ExtensionFitsNot<T(!new)>(fits: seq<T> -> bool, all: seq<T>, x: T)
    requires Shrinkable(fits) && !fits(all)
    ensures !fits(all + [x])
  {
    assert (all + [x])[..|all|] == all;
  }

  /** Forgetting what no longer fits loses nothing: the next window is the same. */
  lemma {:induction false} LongestIncremental<T(!new)>(fits: seq<T> -> bool, all: seq<T>, x: T)
    requires Shrinkable(fits)
    ensures Longest(fits, Longest(fits, all) + [x]) == Longest(fits, all + [x])
  {
    if !fits(all) {
      ExtensionFitsNot(fits, all, x);
      LongestIncremental(fits, all[1..], x);
      assert (all + [x])[1..] == all[1..] + [x];
    }
  }
}

/** The observation history of the reasoner node, and the history window of the experiment engine. */
module History {
  import opened Suffixes

  datatype Entry = Entry(user: string, asst: string)

  datatype Policy = Never | OnError | EveryN(interval: nat)

  // `maxChars` 0 means no character limit.
  datatype Config = Config(maxEntries: nat, maxChars: nat, policy: Policy, structured: bool) {
    predicate Valid() { policy.EveryN? ==> policy.interval > 0 }
  }

  function Chars(cfg: Config, e: Entry): nat {
    |e.asst| + if cfg.structured then |e.user| else 0
  }

  function SizeChars(cfg: Config, es: seq<Entry>): nat {
    if es == [] then 0 else Chars(cfg, es[0]) + SizeChars(cfg, es[1..])
  }

  ghost function Fits(cfg: Config): seq<Entry> -> bool {
    (es: seq<Entry>) => |es| <= cfg.maxEntries && (cfg.maxChars > 0 ==> SizeChars(cfg, es) <= cfg.maxChars)
  }

  lemma {:induction false} SizeSnoc(cfg: Config, es: seq<Entry>, e: Entry)
    ensures SizeChars(cfg, es + [e]) == SizeChars(cfg, es) + Chars(cfg, e)
  {
    if es == [] {
      assert es + [e] == [e] && [e][1..] == [];
    } else {
      SizeSnoc(cfg, es[1..], e);
      assert (es + [e])[1..] == es[1..] + [e];
    }
  }

  lemma FitsShrinks(cfg: Config)
    ensures Shrinkable(Fits(cfg))
  {
    forall s: seq<Entry> | s != [] && Fits(cfg)(s)
      ensures Fits(cfg)(s[..|s| - 1])
    {
      SizeSnoc(cfg, s[..|s| - 1], s[|s| - 1]);
      assert s == s[..|s| - 1] + [s[|s| - 1]];
    }
  }

  function Answers(es: seq<Entry>): string { if es == [] then "" else es[0].asst + Answers(es[1..]) }
  function Prompts(es: seq<Entry>): string { if es == [] then "" else es[0].user + Prompts(es[1..]) }

  /**
   * What fits: no more entries than allowed, and unless there is no character limit all answers
   * together, and with them the prompts in structured delivery, within it.
   */
  lemma FitsExactly(cfg: Config, es: seq<Entry>)
    ensures Fits(cfg)(es) <==>
            && |es| <= cfg.maxEntries
            && (cfg.maxChars == 0 || |Answers(es)| + (if cfg.structured then |Prompts(es)| else 0) <= cfg.maxChars)
  {
    SizeExactly(cfg, es);
  }

  lemma {:induction false} SizeExactly(cfg: Config, es: seq<Entry>)
    ensures SizeChars(cfg, es) == |Answers(es)| + (if cfg.structured then |Prompts(es)| else 0)
  {
    if es != [] { SizeExactly(cfg, es[1..]); }
  }

  class ObservationHistory {
    const cfg: Config
    var entries: seq<Entry>
    var requestsSinceReset: nat
    ghost var since: seq<Entry>  // every successful, non-empty response since the last clear

    /** The deque is the longest suffix of those responses that fits both limits. */
    ghost predicate Valid()
      reads this
    {
      && cfg.Valid() && |since| <= requestsSinceReset
      && Fits(cfg)([]) && entries == Longest(Fits(cfg), since)
    }

    constructor (cfg: Config)
      requires cfg.Valid()
      ensures Valid() && this.cfg == cfg && since == [] && requestsSinceReset == 0
    {
      this.cfg := cfg;
      entries, requestsSinceReset, since := [], 0, [];
    }

    method MaybeResetBeforeRequest()
      requires Valid()
      modifies this
      ensures Valid()
      ensures var clears := old(entries) != [] && cfg.policy.EveryN? && old(requestsSinceReset) >= cfg.policy.interval;
              && since == (if clears then [] else old(since))
              && requestsSinceReset == (if clears then 0 else old(requestsSinceReset))
      ensures cfg.policy.EveryN? && entries != [] ==> requestsSinceReset < cfg.policy.interval
    {
      if entries == [] { return; }
      if cfg.policy.EveryN? && cfg.policy.interval > 0 && requestsSinceReset >= cfg.policy.interval {
        entries, requestsSinceReset, since := [], 0, [];
      }
    }

    /** `observation_history_size_chars`. */
    method SizeNow() returns (total: nat)
      ensures total == SizeChars(cfg, entries)
    {
      total := 0;
      for i := 0 to |entries|
        invariant SizeChars(cfg, entries) == total + SizeChars(cfg, entries[i..])
      {
        total := total + |entries[i].asst|;
        if cfg.structured { total := total + |entries[i].user|; }
        assert entries[i..][1..] == entries[i + 1..];
      }
      assert entries[|entries|..] == [];
    }

    method UpdateAfterResponse(success: bool, text: string, user: string)
      requires Valid()
      modifies this
      ensures Valid()
      ensures var clears := cfg.policy.OnError? && !success;
              var records := cfg.maxEntries > 0 && success && text != "";
              && since == (if clears then [] else if records then old(since) + [Entry(user, text)] else old(since))
              && requestsSinceReset == if clears then 0 else old(requestsSinceReset) + 1
    {
      requestsSinceReset := requestsSinceReset + 1;
      if cfg.policy.OnError? && !success {
        entries, requestsSinceReset, since := [], 0, [];
        return;
      }
      if cfg.maxEntries <= 0 || !success || text == "" { return; }
      FitsShrinks(cfg);
      LongestIncremental(Fits(cfg), since, Entry(user, text));
      since := since + [Entry(user, text)];
      entries := entries + [Entry(user, text)];
      PopUntilFits();
    }

    /** The two loops that pop the oldest entries. */
    method PopUntilFits()
      requires Shrinkable(Fits(cfg))
      modifies this`entries
      ensures entries == Longest(Fits(cfg), old(entries))
    {
      while |entries| > cfg.maxEntries
        invariant Longest(Fits(cfg), entries) == Longest(Fits(cfg), old(entries))
      {
        entries := entries[1..];
      }
      if cfg.maxChars > 0 {
        var size := SizeNow();
        while entries != [] && size > cfg.maxChars
          invariant Longest(Fits(cfg), entries) == Longest(Fits(cfg), old(entries))
          invariant size == SizeChars(cfg, entries) && |entries| <= cfg.maxEntries
        {
          entries := entries[1..];
          size := SizeNow();
        }
      }
    }
  }

  // ---- The experiment engine -----------------------------------------------------------

  const SEPARATOR: string := "; "

  function Join(parts: seq<string>): string {
    if parts == [] then "" else if |parts| == 1 then parts[0] else parts[0] + SEPARATOR + Join(parts[1..])
  }

  /** Joining is by `"; "` between any two parts. */
  lemma {:induction false} JoinExactly(a: seq<string>, b: seq<string>)
    requires a != [] && b != []
    ensures Join(a + b) == Join(a) + "; " + Join(b) && Join([a[0]]) == a[0]
  {
    assert (a + b)[1..] == a[1..] + b;
    if |a| > 1 {
      JoinExactly(a[1..], b);
    } else {
      assert a[1..] + b == b;
    }
  }

  ghost function JoinFits(maxChars: nat): seq<string> -> bool {
    (parts: seq<string>) => |Join(parts)| <= maxChars
  }

  lemma JoinCons(x: string, parts: seq<string>)
    ensures |Join([x] + parts)| == |x| + |Join(parts)| + if parts == [] then 0 else 2
  {
    assert ([x] + parts)[1..] == parts;
  }

  lemma {:induction false} JoinPrefix(parts: seq<string>)
    requires parts != []
    ensures |Join(parts[..|parts| - 1])| <= |Join(parts)|
  {
    if |parts| > 1 {
      JoinPrefix(parts[1..]);
      assert parts[1..][..|parts| - 2] == parts[..|parts| - 1][1..];
      JoinCons(parts[0], parts[1..]);
      JoinCons(parts[0], parts[..|parts| - 1][1..]);
      assert parts == [parts[0]] + parts[1..];
      assert parts[..|parts| - 1] == [parts[0]] + parts[..|parts| - 1][1..];
    }
  }

  lemma JoinFitsShrinks(maxChars: nat)
    ensures Shrinkable(JoinFits(maxChars))
  {
    forall parts: seq<string> | parts != [] && JoinFits(maxChars)(parts)
      ensures JoinFits(maxChars)(parts[1..]) && JoinFits(maxChars)(parts[..|parts| - 1])
    {
      JoinCons(parts[0], parts[1..]);
      assert parts == [parts[0]] + parts[1..];
      JoinPrefix(parts);
    }
  }

  /** `_truncate_history`: newest entries first, as many as the budget allows, shown oldest first. */
  method TruncateHistory(history: seq<string>, maxChars: int) returns (block: string)
    ensures maxChars <= 0 ==> block == ""
    ensures maxChars >= 0 ==> JoinFits(maxChars)([]) && block == Join(Longest(JoinFits(maxChars), history))
  {
    if history == [] || maxChars <= 0 {
      if maxChars >= 0 { LongestFacts(JoinFits(maxChars), history); }
      return "";
    }
    ghost var fits := JoinFits(maxChars);
    JoinFitsShrinks(maxChars);
    var selected: seq<string> := [];
    var used := 0;
    var i := |history|;
    while i > 0
      invariant 0 <= i <= |history|
      invariant selected == history[i..] && used == |Join(selected)| && fits(selected)
    {
      var entry := history[i - 1];
      var need := |entry| + if selected != [] then 2 else 0;
      assert history[i - 1..] == [entry] + history[i..];
      JoinCons(entry, selected);
      if used + need > maxChars { break; }
      selected := [entry] + selected;
      used := used + need;
      i := i - 1;
    }
    forall j | 0 <= j < i
      ensures !fits(history[j..])
    {
      LongerFitsNeither(fits, history, i - 1, j);
    }
    LongestIsLongest(fits, history, selected);
    return Join(selected);
  }

  ghost function BothFit(maxEntries: nat, maxChars: nat): seq<string> -> bool {
    (parts: seq<string>) => |parts| <= maxEntries && |Join(parts)| <= maxChars
  }

  function LastN(s: seq<string>, n: nat): seq<string> {
    if |s| <= n then s else s[|s| - n..]
  }

  /** Cutting to the last entries first and then to the budget is cutting to both at once. */
  lemma CutTwice(all: seq<string>, maxEntries: nat, maxChars: nat)
    ensures JoinFits(maxChars)([]) && BothFit(maxEntries, maxChars)([])
    ensures Longest(JoinFits(maxChars), LastN(all, maxEntries)) == Longest(BothFit(maxEntries, maxChars), all)
  {
    var recent := LastN(all, maxEntries);
    assert JoinFits(maxChars)([]) && BothFit(maxEntries, maxChars)([]);
    hide Join, Longest;
    LongestFacts(JoinFits(maxChars), recent);
    var s := Longest(JoinFits(maxChars), recent);
    var d := |all| - |recent|;
    assert recent == all[d..];
    assert s == all[|all| - |s|..];
    forall j | 0 <= j < |all| - |s|
      ensures !BothFit(maxEntries, maxChars)(all[j..])
    {
      if j >= d { assert all[j..] == recent[j - d..]; }
    }
    assert IsLongest(BothFit(maxEntries, maxChars), all, s);
    LongestIsLongest(BothFit(maxEntries, maxChars), all, s);
  }

  class ExperimentHistory {
    const maxEntries: nat
    const maxChars: nat
    var history: seq<string>
    ghost var all: seq<string>  // every successful, non-empty response of the experiment

    ghost predicate Valid()
      reads this
    {
      history == if maxEntries > 0 then LastN(all, maxEntries) else all
    }

    constructor (maxEntries: nat, maxChars: nat)
      ensures Valid() && all == [] && this.maxEntries == maxEntries && this.maxChars == maxChars
    {
      this.maxEntries, this.maxChars, history, all := maxEntries, maxChars, [], [];
    }

    /** The end of one turn of `_run_observation_history`. */
    method Record(success: bool, text: string)
      requires Valid()
      modifies this
      ensures Valid() && all == if success && text != "" then old(all) + [text] else old(all)
    {
      if success && text != "" {
        all := all + [text];
        history := history + [text];
        if maxEntries > 0 {
          history := if |history| <= maxEntries then history else history[|history| - maxEntries..];
        }
      }
    }

    /** The history block of the next prompt: the longest suffix of everything that fits both limits. */
    method Block() returns (block: string)
      requires Valid()
      ensures BothFit(maxEntries, maxChars)([])
      ensures block == Join(Longest(BothFit(maxEntries, maxChars), all))
    {
      CutTwice(all, maxEntries, maxChars);
      var used := if maxEntries > 0 then history else [];
      assert maxEntries == 0 ==> LastN(all, 0) == [];
      block := TruncateHistory(used, maxChars);
    }
  }
}
