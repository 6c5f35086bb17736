/** The permuting scan of getopt_internal: non-options are moved behind the options as they are met. */
module Getopt {
  import opened Permute

  /** How arguments are read.  An option takes one element of argv, or two if it needs an argument;
      which options do is left open. */
  datatype Rules = Rules(takesNext: string -> bool, dashIsOption: bool)

  predicate IsNonOption(u: Rules, s: string) {
    s == "" || s[0] != '-' || (s == "-" && !u.dashIsOption)
  }

  /** Elements taken by the option at position `i`: a missing argument takes nothing. */
  function Takes(u: Rules, s: seq<string>, i: nat): (n: nat)
    requires i < |s|
    ensures 1 <= n <= |s| - i
  {
    if u.takesNext(s[i]) && i + 1 < |s| then 2 else 1
  }

  // ----- what the scan is meant to produce, read off the original argv

  /** The options from `i` on with their arguments, up to and with the first "--". */
  function Options(u: Rules, s: seq<string>, i: nat): seq<string>
    requires i <= |s|
    decreases |s| - i
  {
    if i == |s| then []
    else if IsNonOption(u, s[i]) then Options(u, s, i + 1)
    else if s[i] == "--" then [s[i]]
    else s[i..i + Takes(u, s, i)] + Options(u, s, i + Takes(u, s, i))
  }

  /** The non-options from `i` on, before the first "--". */
  function NonOptions(u: Rules, s: seq<string>, i: nat): seq<string>
    requires i <= |s|
    decreases |s| - i
  {
    if i == |s| then []
    else if IsNonOption(u, s[i]) then [s[i]] + NonOptions(u, s, i + 1)
    else if s[i] == "--" then []
    else NonOptions(u, s, i + Takes(u, s, i))
  }

  /** Where the scan from `i` stops. */
  function Stop(u: Rules, s: seq<string>, i: nat): (n: nat)
    requires i <= |s|
    ensures i <= n <= |s|
    decreases |s| - i
  {
    if i == |s| then i
    else if IsNonOption(u, s[i]) then Stop(u, s, i + 1)
    else if s[i] == "--" then i + 1
    else Stop(u, s, i + Takes(u, s, i))
  }

  /** One step of the three functions. */
  lemma ScanStep(u: Rules, s: seq<string>, i: nat)
    requires i < |s|
    ensures IsNonOption(u, s[i]) ==>
              && Options(u, s, i) == Options(u, s, i + 1) && Stop(u, s, i) == Stop(u, s, i + 1)
              && NonOptions(u, s, i) == [s[i]] + NonOptions(u, s, i + 1)
    ensures !IsNonOption(u, s[i]) && s[i] == "--" ==>
              Options(u, s, i) == [s[i]] && NonOptions(u, s, i) == [] && Stop(u, s, i) == i + 1
    ensures !IsNonOption(u, s[i]) && s[i] != "--" ==>
              var n := Takes(u, s, i);
              && Options(u, s, i) == s[i..i + n] + Options(u, s, i + n)
              && NonOptions(u, s, i) == NonOptions(u, s, i + n) && Stop(u, s, i) == Stop(u, s, i + n)
  {
  }

  lemma ScanEnd(u: Rules, s: seq<string>)
    ensures Options(u, s, |s|) == [] && NonOptions(u, s, |s|) == [] && Stop(u, s, |s|) == |s|
  {
  }

  /** Nothing is lost: options and non-options together are the scanned part. */
  lemma {:induction false} ScanPermutes(u: Rules, s: seq<string>, i: nat)
    requires i <= |s|
    ensures multiset(Options(u, s, i) + NonOptions(u, s, i)) == multiset(s[i..Stop(u, s, i)])
    decreases |s| - i
  {
    hide Options, NonOptions, Stop, IsNonOption, Takes;
    if i == |s| {
      ScanEnd(u, s);
    } else {
      ScanStep(u, s, i);
      if IsNonOption(u, s[i]) {
        ScanPermutes(u, s, i + 1);
        assert s[i..Stop(u, s, i)] == [s[i]] + s[i + 1..Stop(u, s, i + 1)];
      } else if s[i] == "--" {
        assert s[i..i + 1] == [s[i]];
      } else {
        var n := Takes(u, s, i);
        ScanPermutes(u, s, i + n);
        assert s[i..Stop(u, s, i)] == s[i..i + n] + s[i + n..Stop(u, s, i + n)];
      }
    }
  }

  // ----- the same in terms of the characters of the arguments

  /** An option: it begins with a dash, and a lone dash counts only if the program declares it. */
  predicate Dashed(u: Rules, e: string) {
    e != "" && e[0] == '-' && (e == "-" ==> u.dashIsOption)
  }

  /** Options, each followed by its argument if it takes one; "--" only as the last, or as an argument. */
  ghost predicate OptionBlock(u: Rules, block: seq<string>) {
    block == [] ||
    (&& Dashed(u, block[0])
     && if block[0] == "--" then |block| == 1
        else if u.takesNext(block[0]) && |block| > 1 then OptionBlock(u, block[2..])
        else OptionBlock(u, block[1..]))
  }

  /** In a scan from `first`, element `d` is the argument of the option before it. */
  ghost predicate IsArgument(u: Rules, s: seq<string>, first: nat, d: nat)
    requires first <= d <= |s|
  {
    && first < d && Dashed(u, s[d - 1]) && s[d - 1] != "--" && u.takesNext(s[d - 1])
    && !IsArgument(u, s, first, d - 1)
  }

  /** Element `d` is a "--" that is not an argument. */
  ghost predicate IsEnd(u: Rules, s: seq<string>, first: nat, d: nat)
    requires first <= d < |s|
  {
    s[d] == "--" && !IsArgument(u, s, first, d)
  }

  /** `stop` is behind the first "--" that is not an argument, or the end of argv if there is none. */
  ghost predicate IsStop(u: Rules, s: seq<string>, first: nat, stop: nat)
    requires first <= |s|
  {
    && first <= stop <= |s|
    && (forall d | first <= d < stop - 1 :: !IsEnd(u, s, first, d))
    && (stop < |s| ==> stop > first && IsEnd(u, s, first, stop - 1))
  }

  /** `t` is `s` with the elements from `first` to `stop` parted: options up to `optind`, then the rest. */
  ghost predicate Parted(u: Rules, s: seq<string>, first: nat, t: seq<string>, optind: nat, stop: nat)
    requires first <= |s|
  {
    && |t| == |s| && first <= optind <= stop <= |s| && IsStop(u, s, first, stop)
    && t[..first] == s[..first] && t[stop..] == s[stop..]
    && OptionBlock(u, t[first..optind])
    && (forall k | optind <= k < stop :: t[k] == "" || t[k][0] != '-' || (t[k] == "-" && !u.dashIsOption))
    && (first < stop && IsEnd(u, s, first, stop - 1) ==> first < optind && t[optind - 1] == "--")
  }

  lemma {:induction false} NonOptionsAre(u: Rules, s: seq<string>, i: nat)
    requires i <= |s|
    ensures forall e | e in NonOptions(u, s, i) :: e == "" || e[0] != '-' || (e == "-" && !u.dashIsOption)
    decreases |s| - i
  {
    hide Options, Stop;
    if i < |s| {
      NonOptionsAre(u, s, i + 1);
      if !IsNonOption(u, s[i]) { NonOptionsAre(u, s, i + Takes(u, s, i)); }
    }
  }

  lemma {:induction false} OptionsAre(u: Rules, s: seq<string>, i: nat)
    requires i <= |s|
    ensures OptionBlock(u, Options(u, s, i))
    decreases |s| - i
  {
    hide Options, NonOptions, Stop;
    if i == |s| {
      ScanEnd(u, s);
    } else {
      ScanStep(u, s, i);
      if IsNonOption(u, s[i]) {
        OptionsAre(u, s, i + 1);
      } else if s[i] != "--" {
        var n := Takes(u, s, i);
        OptionsAre(u, s, i + n);
        var rest, block := Options(u, s, i + n), Options(u, s, i);
        assert block[0] == s[i] && block[n..] == rest;
        if n == 1 && u.takesNext(s[i]) { ScanEnd(u, s); }
      }
    }
  }

  /** From a position that is not an argument the scan goes on to behind the next "--" that is not one. */
  lemma {:induction false} StopIs(u: Rules, s: seq<string>, first: nat, i: nat)
    requires first <= i <= |s| && (i < |s| ==> !IsArgument(u, s, first, i))
    requires forall d | first <= d < i :: !IsEnd(u, s, first, d)
    ensures IsStop(u, s, first, Stop(u, s, i))
    ensures first < Stop(u, s, i) && IsEnd(u, s, first, Stop(u, s, i) - 1) ==>
              Options(u, s, i) != [] && Options(u, s, i)[|Options(u, s, i)| - 1] == "--"
    decreases |s| - i
  {
    hide Options, NonOptions, Stop;
    if i == |s| {
      ScanEnd(u, s);
    } else {
      ScanStep(u, s, i);
      if IsNonOption(u, s[i]) {
        StopIs(u, s, first, i + 1);
      } else if s[i] != "--" {
        StopIs(u, s, first, i + Takes(u, s, i));
      }
    }
  }

  lemma FinishedIsParted(u: Rules, s: seq<string>, first: nat, t: seq<string>, optind: nat)
    requires first <= |s|
    requires t == s[..first] + Options(u, s, first) + NonOptions(u, s, first) + s[Stop(u, s, first)..]
    requires optind == first + |Options(u, s, first)|
    ensures Parted(u, s, first, t, optind, Stop(u, s, first))
  {
    hide Options, NonOptions, Stop, OptionBlock, IsStop, IsEnd;
    var o, n, stop := Options(u, s, first), NonOptions(u, s, first), Stop(u, s, first);
    ScanPermutes(u, s, first);
    assert |o + n| == |multiset(o + n)| == |multiset(s[first..stop])| == stop - first;
    NonOptionsAre(u, s, first);
    OptionsAre(u, s, first);
    StopAtFirst(u, s, first);
    assert t[first..optind] == o;
    forall k | optind <= k < stop ensures t[k] in n { assert t[k] == n[k - optind]; }
    assert t[..first] == s[..first] && t[stop..] == s[stop..];
  }

  lemma StopAtFirst(u: Rules, s: seq<string>, first: nat)
    requires first <= |s|
    ensures IsStop(u, s, first, Stop(u, s, first))
    ensures first < Stop(u, s, first) && IsEnd(u, s, first, Stop(u, s, first) - 1) ==>
              Options(u, s, first) != [] && Options(u, s, first)[|Options(u, s, first)| - 1] == "--"
  {
    StopIs(u, s, first, first);
  }

  /** The scan from `first` has met `opts` and `nons` and is now at `i`. */
  ghost predicate Progress(u: Rules, s: seq<string>, first: nat, i: nat, opts: seq<string>, nons: seq<string>) {
    && first <= |s| && i <= |s|
    && Options(u, s, first) == opts + Options(u, s, i)
    && NonOptions(u, s, first) == nons + NonOptions(u, s, i)
    && Stop(u, s, first) == Stop(u, s, i)
  }

  lemma ProgressStep(u: Rules, s: seq<string>, first: nat, i: nat, opts: seq<string>, nons: seq<string>)
    requires Progress(u, s, first, i, opts, nons) && i < |s|
    ensures IsNonOption(u, s[i]) ==> Progress(u, s, first, i + 1, opts, nons + [s[i]])
    ensures !IsNonOption(u, s[i]) && s[i] == "--" ==>
              Options(u, s, first) == opts + s[i..i + 1] && NonOptions(u, s, first) == nons
                && Stop(u, s, first) == i + 1
    ensures !IsNonOption(u, s[i]) && s[i] != "--" ==>
              Progress(u, s, first, i + Takes(u, s, i), opts + s[i..i + Takes(u, s, i)], nons)
  {
    hide Options, NonOptions, Stop, IsNonOption, Takes;
    ScanStep(u, s, i);
    assert s[i..i + 1] == [s[i]];
  }

  lemma ProgressEnd(u: Rules, s: seq<string>, first: nat, opts: seq<string>, nons: seq<string>)
    requires Progress(u, s, first, |s|, opts, nons)
    ensures Options(u, s, first) == opts && NonOptions(u, s, first) == nons && Stop(u, s, first) == |s|
  {
    hide Options, NonOptions, Stop;
    ScanEnd(u, s);
  }

  // ----- layout of argv during the scan

  /** `opts` and `nons` are what has been met so far.  The options come first; after them, if there
      are any, the non-options; and behind those the options met since. */
  ghost predicate Layout(t: seq<string>, orig: seq<string>, first: nat, optind: nat, start: int, end: int,
                         opts: seq<string>, nons: seq<string>) {
    && |t| == |orig| && first <= optind <= |orig|
    && |opts| + |nons| == optind - first
    && t[..first] == orig[..first] && t[optind..] == orig[optind..]
    && if start == -1 then end == -1 && nons == [] && t[first..optind] == opts
       else if end == -1 then
         && start == first + |opts| && nons != []
         && t[first..start] == opts && t[start..optind] == nons
       else
         && first <= start < end <= optind && end - start == |nons|
         && t[start..end] == nons && t[first..start] + t[end..optind] == opts
  }

  lemma LayoutSkips(t: seq<string>, orig: seq<string>, first: nat, optind: nat, start: int, end: int,
                    opts: seq<string>, nons: seq<string>)
    requires Layout(t, orig, first, optind, start, end, opts, nons) && optind < |t| && end == -1
    ensures Layout(t, orig, first, optind + 1, if start == -1 then optind else start, -1, opts, nons + [t[optind]])
    ensures t[optind] == orig[optind]
  {
    assert t[optind] == t[optind..][0] == orig[optind..][0];
    assert t[optind + 1..] == t[optind..][1..] && orig[optind + 1..] == orig[optind..][1..];
    if start == -1 {
      assert t[optind..optind + 1] == [t[optind]];
    } else {
      assert t[start..optind + 1] == t[start..optind] + [t[optind]];
    }
  }

  /** The exchange puts the options met since in front of the non-options. */
  lemma LayoutPermuted(t: seq<string>, orig: seq<string>, first: nat, optind: nat, start: int, end: int,
                       opts: seq<string>, nons: seq<string>)
    requires Layout(t, orig, first, optind, start, end, opts, nons) && end != -1 && end < optind
    ensures 0 <= start < end < optind <= |t|
    ensures Layout(Exchanged(t, start, end, optind), orig, first, optind, optind - (end - start), -1, opts, nons)
  {
    var e := Exchanged(t, start, end, optind);
    var mid := optind - (end - start);
    assert e[..first] == t[..first];
    assert e[optind..] == t[optind..];
    assert e[first..mid] == t[first..start] + t[end..optind];
    assert e[mid..optind] == t[start..end];
  }

  lemma LayoutTakes(t: seq<string>, orig: seq<string>, first: nat, optind: nat, start: int, end: int,
                    opts: seq<string>, nons: seq<string>, n: nat)
    requires Layout(t, orig, first, optind, start, end, opts, nons) && optind + n <= |t| && n >= 1
    ensures Layout(t, orig, first, optind + n, start, if start != -1 && end == -1 then optind else end,
                   opts + orig[optind..optind + n], nons)
    ensures t[optind] == orig[optind]
  {
    assert t[optind] == t[optind..][0] == orig[optind..][0];
    assert t[optind..optind + n] == t[optind..][..n] == orig[optind..optind + n];
    assert t[optind + n..] == t[optind..][n..] && orig[optind + n..] == orig[optind..][n..];
    if start == -1 {
      assert t[first..optind + n] == t[first..optind] + t[optind..optind + n];
    } else if end == -1 {
      assert t[first..start] + t[optind..optind + n] == opts + orig[optind..optind + n];
    } else {
      assert t[end..optind + n] == t[end..optind] + t[optind..optind + n];
    }
  }

  /** A resting layout: all options met, then all non-options. */
  lemma LayoutRests(t: seq<string>, orig: seq<string>, first: nat, optind: nat, start: int,
                    opts: seq<string>, nons: seq<string>)
    requires Layout(t, orig, first, optind, start, -1, opts, nons)
    ensures t == orig[..first] + opts + nons + orig[optind..]
    ensures start == -1 ==> nons == [] && first + |opts| == optind
    ensures start != -1 ==> start == first + |opts|
  {
    if start == -1 {
      assert t == t[..first] + t[first..optind] + t[optind..];
    } else {
      assert t == t[..first] + t[first..start] + t[start..optind] + t[optind..];
    }
  }

  class Scanner {
    const argv: array<string>
    const rules: Rules
    var optind: nat
    var nonoptStart: int
    var nonoptEnd: int

    ghost const orig: seq<string>
    ghost const first: nat
    ghost var opts: seq<string>
    ghost var nons: seq<string>

    /** Between two calls. */
    ghost predicate Valid()
      reads this, argv
    {
      && Layout(argv[..], orig, first, optind, nonoptStart, nonoptEnd, opts, nons)
      && (nonoptEnd != -1 ==> nonoptEnd < optind)
      && Progress(rules, orig, first, optind, opts, nons)
    }

    constructor (argv: array<string>, rules: Rules, optind: nat)
      requires optind <= argv.Length
      ensures Valid() && this.argv == argv && this.rules == rules
      ensures orig == argv[..] && first == optind && this.optind == optind
    {
      this.argv, this.rules, this.optind := argv, rules, optind;
      nonoptStart, nonoptEnd := -1, -1;
      orig, first, opts, nons := argv[..], optind, [], [];
    }

    /** argv as the whole scan leaves it. */
    ghost predicate Finished()
      reads this, argv
      requires first <= |orig|
    {
      && argv[..] == orig[..first] + Options(rules, orig, first) + NonOptions(rules, orig, first)
        + orig[Stop(rules, orig, first)..]
      && optind == first + |Options(rules, orig, first)|
    }

    /** Steps over non-options, exchanging blocks as the program does. */
    method SkipNonOptions()
      requires Valid()
      modifies this, argv
      ensures Valid() && old(optind) <= optind
      ensures optind == argv.Length || !IsNonOption(rules, argv[optind])
    {
      hide Layout, Progress, IsNonOption, Exchanged;
      InRange(argv[..], orig, first, optind, nonoptStart, nonoptEnd, opts, nons);
      while optind < argv.Length && IsNonOption(rules, argv[optind])
        invariant Valid() && old(optind) <= optind <= argv.Length
        decreases argv.Length - optind
      {
        SkipOne();
        InRange(argv[..], orig, first, optind, nonoptStart, nonoptEnd, opts, nons);
      }
    }

    /** Steps over the non-option at optind. */
    method SkipOne()
      requires Valid() && optind < argv.Length && IsNonOption(rules, argv[optind])
      modifies this, argv
      ensures Valid() && optind == old(optind) + 1
    {
      hide Layout, Progress, IsNonOption, Exchanged;
      if nonoptEnd != -1 { MoveBehind(); }
      InRange(argv[..], orig, first, optind, nonoptStart, nonoptEnd, opts, nons);
      LayoutSkips(argv[..], orig, first, optind, nonoptStart, nonoptEnd, opts, nons);
      ProgressStep(rules, orig, first, optind, opts, nons);
      nons := nons + [argv[optind]];
      if nonoptStart == -1 { nonoptStart := optind; }
      optind := optind + 1;
    }

    /** Exchanges the skipped non-options with the options met since. */
    method MoveBehind()
      requires Layout(argv[..], orig, first, optind, nonoptStart, nonoptEnd, opts, nons) && nonoptEnd != -1
               && nonoptEnd < optind
      modifies this`nonoptStart, this`nonoptEnd, argv
      ensures Layout(argv[..], orig, first, optind, nonoptStart, nonoptEnd, opts, nons) && nonoptEnd == -1
      ensures 0 <= nonoptStart == optind - (old(nonoptEnd) - old(nonoptStart))
      ensures optind < argv.Length ==> argv[optind] == old(argv[optind])
    {
      hide Layout, Exchanged;
      InRange(argv[..], orig, first, optind, nonoptStart, nonoptEnd, opts, nons);
      LayoutPermuted(argv[..], orig, first, optind, nonoptStart, nonoptEnd, opts, nons);
      PermuteArgs(nonoptStart, nonoptEnd, optind, argv);
      nonoptStart := optind - (nonoptEnd - nonoptStart);
      nonoptEnd := -1;
      InRange(argv[..], orig, first, optind, nonoptStart, nonoptEnd, opts, nons);
    }

    /** Exchanges the blocks if any non-options were skipped, and ends the scan. */
    method Finish()
      requires Layout(argv[..], orig, first, optind, nonoptStart, nonoptEnd, opts, nons)
      requires nonoptEnd != -1 ==> nonoptEnd < optind
      requires opts == Options(rules, orig, first) && nons == NonOptions(rules, orig, first)
               && optind == Stop(rules, orig, first)
      modifies this, argv
      ensures Finished() && nonoptStart == -1 && nonoptEnd == -1
    {
      hide Layout, Options, NonOptions, Stop;
      if nonoptEnd != -1 {
        var skipped := nonoptEnd - nonoptStart;
        MoveBehind();
        LayoutRests(argv[..], orig, first, optind, nonoptStart, opts, nons);
        optind := optind - skipped;
      } else {
        LayoutRests(argv[..], orig, first, optind, nonoptStart, opts, nons);
        if nonoptStart != -1 { optind := nonoptStart; }
      }
      nonoptStart, nonoptEnd := -1, -1;
    }

    /** One call of getopt_internal with FLAG_PERMUTE: handles the next option, or ends the scan. */
    method Call() returns (done: bool)
      requires Valid()
      modifies this, argv
      ensures !done ==> Valid() && old(optind) < optind
      ensures done ==> first <= |orig| && Finished()
    {
      hide Layout, Progress, IsNonOption, Options, NonOptions, Stop, Takes, Exchanged;
      SkipNonOptions();
      InRange(argv[..], orig, first, optind, nonoptStart, nonoptEnd, opts, nons);
      if optind == argv.Length {
        ProgressEnd(rules, orig, first, opts, nons);
        Finish();
        return true;
      }
      ProgressStep(rules, orig, first, optind, opts, nons);
      var n := if argv[optind] == "--" then 1 else Takes(rules, argv[..], optind);
      TakesSame(rules, argv[..], orig, optind);
      LayoutTakes(argv[..], orig, first, optind, nonoptStart, nonoptEnd, opts, nons, n);
      done := argv[optind] == "--";
      if nonoptStart != -1 && nonoptEnd == -1 { nonoptEnd := optind; }
      opts := opts + orig[optind..optind + n];
      optind := optind + n;
      if done { Finish(); }
    }

    /** Calls until the scan ends: all options with their arguments in their original order, then, from
        optind on, all non-options in their original order, then what was not scanned. */
    method Scan()
      requires Valid()
      modifies this, argv
      ensures first <= |orig| && Finished()
      ensures Parted(rules, orig, first, argv[..], optind, Stop(rules, orig, first))
      ensures multiset(argv[..]) == multiset(orig)
    {
      hide Layout, Progress, Options, NonOptions, Stop, Parted;
      InRange(argv[..], orig, first, optind, nonoptStart, nonoptEnd, opts, nons);
      var done := false;
      while !done
        invariant !done ==> Valid()
        invariant first <= |orig| == argv.Length && (done ==> Finished())
        decreases !done, argv.Length - optind
      {
        done := Call();
        if !done { InRange(argv[..], orig, first, optind, nonoptStart, nonoptEnd, opts, nons); }
      }
      FinishedPermutes(rules, orig, first);
      FinishedIsParted(rules, orig, first, argv[..], optind);
    }
  }

  lemma TakesSame(u: Rules, t: seq<string>, s: seq<string>, i: nat)
    requires |t| == |s| && i < |t| && t[i] == s[i]
    ensures Takes(u, t, i) == Takes(u, s, i)
  {
  }

  lemma FinishedPermutes(u: Rules, s: seq<string>, first: nat)
    requires first <= |s|
    ensures multiset(s[..first] + Options(u, s, first) + NonOptions(u, s, first) + s[Stop(u, s, first)..])
            == multiset(s)
  {
    hide Options, NonOptions, Stop;
    ScanPermutes(u, s, first);
    var n := Stop(u, s, first);
    assert s == s[..first] + s[first..n] + s[n..];
    var o, k := Options(u, s, first), NonOptions(u, s, first);
    assert s[..first] + o + k + s[n..] == s[..first] + (o + k) + s[n..];
  }

  lemma InRange(t: seq<string>, orig: seq<string>, first: nat, optind: nat, start: int, end: int,
                opts: seq<string>, nons: seq<string>)
    requires Layout(t, orig, first, optind, start, end, opts, nons)
    ensures first <= optind <= |t| == |orig|
    ensures optind < |t| ==> t[optind] == orig[optind]
    ensures start == -1 ==> end == -1 && nons == []
  {
    if optind < |t| { assert t[optind] == t[optind..][0] == orig[optind..][0]; }
  }
}
