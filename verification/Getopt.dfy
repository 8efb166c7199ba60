/** Short options in permuting mode (host/hackrf-tools/getopt/getopt.c): the scan rotates argv in place
    so that the options come first, against a plain left-to-right reading of the original argv. */
module Getopt {

  datatype Maybe<T> = None | Some(value: T)

  /** What one call reports: its result, optarg, and the character put in optopt, if any. */
  datatype Event = Event(result: char, arg: Maybe<string>, bad: Maybe<char>)

  /** A reading of an argument list: the events, the option elements with their arguments, the rest. */
  datatype Parse = Parse(events: seq<Event>, options: seq<string>, operands: seq<string>)

  datatype First = First(event: Event, next: nat, text: string)

  datatype Kind = Unknown | Plain | Required | Optional

  /** The option string selects neither of the other orderings, and W is no long option. */
  predicate Permutes(optstring: string) {
    && (optstring != "" ==> optstring[0] != '-' && optstring[0] != '+')
    && var w := Index(optstring, 'W'); (w + 1 < |optstring| ==> optstring[w + 1] != ';')
  }

  predicate NonOption(arg: string) {
    |arg| < 2 || arg[0] != '-'
  }

  /** The first place of c in s, |s| if there is none. */
  function Index(s: string, c: char): (i: nat)
    ensures i <= |s| && (i < |s| ==> s[i] == c) && c !in s[..i]
  {
    if s == "" || s[0] == c then 0 else 1 + Index(s[1..], c)
  }

  function KindOf(optstring: string, c: char): Kind {
    var t := Index(optstring, c);
    if t == |optstring| || c == ':' then Unknown
    else if !(t + 1 < |optstring| && optstring[t + 1] == ':') then Plain
    else if t + 2 < |optstring| && optstring[t + 2] == ':' then Optional
    else Required
  }

  /** What getopt answers to an option whose required argument is missing. */
  function MissingResult(optstring: string): char {
    if optstring != "" && optstring[0] == ':' then ':' else '?'
  }

  function Min(x: nat, y: nat): nat {
    if x > y then y else x
  }

  function More(events: seq<Event>, options: seq<string>, operands: seq<string>, rest: Parse): Parse {
    Parse(events + rest.events, options + rest.options, operands + rest.operands)
  }

  /** The option at the head of text, in element i: its event, and the element and the characters from
      which the reading goes on. */
  function FirstOption(optstring: string, args: seq<string>, i: nat, text: string): (f: First)
    requires text != "" && i < |args|
    ensures i <= f.next <= |args| && (f.next == i ==> f.text == text[1..] != "") && (f.next != i ==> f.text == "")
  {
    var c, tail := text[0], text[1..];
    match KindOf(optstring, c)
    case Required =>
      if tail != "" then First(Event(c, Some(tail), None), i + 1, "")
      else if i + 1 < |args| then First(Event(c, Some(args[i + 1]), None), i + 2, "")
      else First(Event(MissingResult(optstring), None, Some(c)), i + 1, "")
    case Optional =>
      First(Event(c, if tail != "" then Some(tail) else None, None), i + 1, "")
    case k =>
      First(if k == Unknown then Event('?', None, Some(c)) else Event(c, None, None),
            if tail == "" then i + 1 else i, tail)
  }

  predicate ColonAt(s: string, k: int) {
    0 <= k < |s| && s[k] == ':'
  }

  /** The option is passed, and the rest of its element, if any, is read next. */
  predicate GoesOn(i: nat, tail: string, f: First) {
    f.text == tail && f.next == if tail == "" then i + 1 else i
  }

  /** What the head of text gives, in the characters of the option string: there, t is the first place of
      the option, and one or two colons may follow. */
  ghost predicate Answers(optstring: string, args: seq<string>, i: nat, text: string, f: First)
    requires text != "" && i < |args|
  {
    var c, tail := text[0], text[1..];
    && (c == ':' || c !in optstring ==> f.event == Event('?', None, Some(c)) && GoesOn(i, tail, f))
    && forall t: nat :: t < |optstring| && optstring[t] == c && c !in optstring[..t] && c != ':' ==>
         && (!ColonAt(optstring, t + 1) ==> f.event == Event(c, None, None) && GoesOn(i, tail, f))
         && (ColonAt(optstring, t + 1) && ColonAt(optstring, t + 2) ==>
               f == First(Event(c, if tail != "" then Some(tail) else None, None), i + 1, ""))
         && (ColonAt(optstring, t + 1) && !ColonAt(optstring, t + 2) ==>
               f == if tail != "" then First(Event(c, Some(tail), None), i + 1, "")
                    else if i + 1 < |args| then First(Event(c, Some(args[i + 1]), None), i + 2, "")
                    else First(Event(if ColonAt(optstring, 0) then ':' else '?', None, Some(c)), i + 1, ""))
  }

  lemma FirstOptionAnswers(optstring: string, args: seq<string>, i: nat, text: string, f: First)
    requires text != "" && i < |args|
    ensures f == FirstOption(optstring, args, i, text) <==> Answers(optstring, args, i, text, f)
  {
    var c := text[0];
    var t := Index(optstring, c);
    assert optstring[..|optstring|] == optstring;
    if t < |optstring| {
      assert c in optstring;
      assert forall k :: 0 <= k < t ==> optstring[..t][k] == optstring[k];
      forall t': nat | t' < |optstring| && optstring[t'] == c && c !in optstring[..t']
        ensures t' == t
      {
        assert forall k :: 0 <= k < t' ==> optstring[..t'][k] == optstring[k];
      }
    }
  }

  /** An option that requires an argument takes the next element, whatever that is; one whose argument is
      optional leaves it, for a non-option if it is one. */
  lemma NextElement(optstring: string, t: nat, program: string, next: string)
    requires t < |optstring| && optstring[t] !in optstring[..t] && optstring[t] != ':' && optstring[t] != '-'
    requires ColonAt(optstring, t + 1)
    ensures var c := optstring[t];
            var r := Rest(optstring, [program, ['-', c], next], 1, "");
            && (!ColonAt(optstring, t + 2) ==> r == Parse([Event(c, Some(next), None)], [['-', c], next], []))
            && (ColonAt(optstring, t + 2) && NonOption(next) ==> r == Parse([Event(c, None, None)], [['-', c]], [next]))
  {
    hide Rest, FirstOption;
    var c: char := optstring[t];
    var option: string := ['-', c];
    var args: seq<string> := [program, option, next];
    TakesNext(optstring, t, args);
    OptionEntered(optstring, args, 1, c);
    assert args[1..3] == [option, next] && args[1..2] == [option];
    OperandsRead(optstring, args, 3);
    if NonOption(next) {
      OperandsRead(optstring, args, 2);
      assert args[2..] == [next];
    }
  }

  lemma OptionEntered(optstring: string, args: seq<string>, i: nat, c: char)
    requires i < |args| && args[i] == ['-', c] && c != '-'
    ensures var f := FirstOption(optstring, args, i, [c]);
            Rest(optstring, args, i, "") == More([f.event], args[i..f.next], [], Rest(optstring, args, f.next, f.text))
  {
    hide FirstOption;
    assert args[i][1..] == [c] && args[i] != "--" && !NonOption(args[i]);
    RestReads(optstring, args, i, [c]);
  }

  lemma TakesNext(optstring: string, t: nat, args: seq<string>)
    requires t < |optstring| && optstring[t] !in optstring[..t] && optstring[t] != ':' && ColonAt(optstring, t + 1)
             && |args| == 3
    ensures var c := optstring[t];
            FirstOption(optstring, args, 1, [c])
            == if ColonAt(optstring, t + 2) then First(Event(c, None, None), 2, "")
               else First(Event(c, Some(args[2]), None), 3, "")
  {
    FirstOptionAnswers(optstring, args, 1, [optstring[t]], FirstOption(optstring, args, 1, [optstring[t]]));
    hide FirstOption;
  }

  /** The reading of args from element i on, when the characters of text are still to be read in that
      element; text is empty between elements. Nothing is moved. */
  function Rest(optstring: string, args: seq<string>, i: nat, text: string): Parse
    requires i <= |args| && (text != "" ==> i < |args|)
    decreases |args| - i, text == "", |text|
  {
    if text == "" then
      if i == |args| then Parse([], [], [])
      else if args[i] == "--" then Parse([], ["--"], args[i + 1..])
      else if NonOption(args[i]) then More([], [], [args[i]], Rest(optstring, args, i + 1, ""))
      else Rest(optstring, args, i, args[i][1..])
    else
      var f := FirstOption(optstring, args, i, text);
      More([f.event], args[i..f.next], [], Rest(optstring, args, f.next, f.text))
  }

  /** zs is xs and ys, each in its own order. */
  ghost predicate Merges(xs: seq<string>, ys: seq<string>, zs: seq<string>) {
    if zs == [] then xs == ys == []
    else (xs != [] && xs[0] == zs[0] && Merges(xs[1..], ys, zs[1..]))
         || (ys != [] && ys[0] == zs[0] && Merges(xs, ys[1..], zs[1..]))
  }

  lemma {:induction false} MergesPrefixed(ps: seq<string>, xs: seq<string>, ys: seq<string>, zs: seq<string>)
    requires Merges(xs, ys, zs)
    ensures Merges(ps + xs, ys, ps + zs)
  {
    if ps == [] {
      assert ps + xs == xs && ps + zs == zs;
    } else {
      MergesPrefixed(ps[1..], xs, ys, zs);
      assert (ps + xs)[1..] == ps[1..] + xs && (ps + zs)[1..] == ps[1..] + zs;
    }
  }

  lemma {:induction false} AllMerge(ys: seq<string>)
    ensures Merges([], ys, ys)
  {
    if ys != [] {
      AllMerge(ys[1..]);
    }
  }

  /** The reading keeps every element, options and non-options each in their original order. */
  lemma {:induction false} ReadingMerges(optstring: string, args: seq<string>, i: nat, text: string)
    requires i <= |args| && (text != "" ==> i < |args|)
    ensures var r := Rest(optstring, args, i, text); Merges(r.options, r.operands, args[i..])
    decreases |args| - i, text == "", |text|
  {
    hide FirstOption;
    var r := Rest(optstring, args, i, text);
    if text != "" {
      var f := FirstOption(optstring, args, i, text);
      ReadingMerges(optstring, args, f.next, f.text);
      var after := Rest(optstring, args, f.next, f.text);
      MergesPrefixed(args[i..f.next], after.options, after.operands, args[f.next..]);
      assert args[i..] == args[i..f.next] + args[f.next..];
      assert r.operands == after.operands;
    } else if i < |args| {
      assert args[i..] == [args[i]] + args[i + 1..];
      if args[i] == "--" {
        AllMerge(args[i + 1..]);
        MergesPrefixed(["--"], [], args[i + 1..], args[i + 1..]);
        assert ["--"] + [] == r.options;
      } else if NonOption(args[i]) {
        ReadingMerges(optstring, args, i + 1, "");
        var after := Rest(optstring, args, i + 1, "");
        assert r.operands[1..] == after.operands && r.options == after.options;
      } else {
        ReadingMerges(optstring, args, i, args[i][1..]);
      }
    }
  }

  /** The reading ends at an option whose argument is missing. */
  predicate ArgumentMissing(optstring: string, r: Parse) {
    r.events != [] && var e := r.events[|r.events| - 1]; e.bad.Some? && KindOf(optstring, e.bad.value) == Required
  }

  lemma {:induction false} OperandsRead(optstring: string, args: seq<string>, i: nat)
    requires i <= |args| && forall k :: i <= k < |args| ==> NonOption(args[k])
    ensures Rest(optstring, args, i, "") == Parse([], [], args[i..])
    decreases |args| - i
  {
    if i < |args| {
      OperandsRead(optstring, args, i + 1);
      assert args[i..] == [args[i]] + args[i + 1..];
    }
  }

  predicate MissingAt(optstring: string, args: seq<string>, i: nat, text: string) {
    |text| == 1 && KindOf(optstring, text[0]) == Required && i + 1 == |args|
  }

  /** The option at the head of text depends on the next element only, and only if it takes it. */
  lemma FirstOptionMoves(optstring: string, args: seq<string>, i: nat, text: string, args': seq<string>, i': nat)
    requires text != "" && i < |args| && i' < |args'|
    requires |text| == 1 && KindOf(optstring, text[0]) == Required ==>
               (i + 1 < |args| <==> i' + 1 < |args'|)
                 && (i + 1 < |args| ==> i' + 1 < |args'| && args[i + 1] == args'[i' + 1])
    ensures var f, f' := FirstOption(optstring, args, i, text), FirstOption(optstring, args', i', text);
            f' == f.(next := f.next - i + i')
  {
  }

  /** An option in progress: its events, and its element among the options. */
  lemma {:induction false} InProgress(optstring: string, args: seq<string>, i: nat, text: string)
    requires i < |args| && text != ""
    ensures var r := Rest(optstring, args, i, text);
            r.events != [] && r.options != [] && r.options[0] == args[i]
    decreases |text|
  {
    var f := FirstOption(optstring, args, i, text);
    if f.next == i {
      InProgress(optstring, args, i, f.text);
    } else {
      assert args[i..f.next][0] == args[i];
    }
  }

  /** The options moved to the front, with skipped non-options before the ones that were left. */
  function Permuted(before: seq<string>, r: Parse, skipped: seq<string>): seq<string> {
    before + r.options + (skipped + r.operands)
  }

  /** A non-option now stands where a missing argument was sought. */
  predicate Spoilt(optstring: string, r: Parse, skipped: seq<string>) {
    ArgumentMissing(optstring, r) && skipped + r.operands != []
  }

  /** The permuted list reads as before: the same events and options, the same non-options. */
  ghost predicate ReadsTheSame(optstring: string, before: seq<string>, r: Parse, skipped: seq<string>, text: string) {
    var permuted := Permuted(before, r, skipped);
    (text != "" ==> |before| < |permuted|)
      && Rest(optstring, permuted, |before|, text) == r.(operands := skipped + r.operands)
  }

  /** Reading the permuted list gives the same, unless an argument was missing. */
  lemma {:induction false} PermutedReads(optstring: string, args: seq<string>, i: nat, text: string,
                                         before: seq<string>, skipped: seq<string>)
    requires i <= |args| && (text != "" ==> i < |args|)
    requires forall k :: 0 <= k < |skipped| ==> NonOption(skipped[k])
    ensures var r := Rest(optstring, args, i, text);
            ReadsTheSame(optstring, before, r, skipped, text) <==> !Spoilt(optstring, r, skipped)
    decreases |args| - i, text == "", |text|
  {
    hide ReadsTheSame, Spoilt;
    if text != "" {
      if MissingAt(optstring, args, i, text) {
        PermutedMissing(optstring, args, i, text, before, skipped);
      } else {
        var f := FirstOption(optstring, args, i, text);
        PermutedReads(optstring, args, f.next, f.text, before + args[i..f.next], skipped);
        PermutedOption(optstring, args, i, text, before, skipped);
        LastEvent(optstring, args, i, text, skipped);
      }
    } else if i == |args| || args[i] == "--" {
      PermutedEnd(optstring, args, i, before, skipped);
    } else if NonOption(args[i]) {
      PermutedReads(optstring, args, i + 1, "", before, skipped + [args[i]]);
      PermutedOperand(optstring, args, i, before, skipped);
    } else {
      PermutedReads(optstring, args, i, args[i][1..], before, skipped);
      PermutedElement(optstring, args, i, before, skipped);
    }
  }

  lemma PermutedEnd(optstring: string, args: seq<string>, i: nat, before: seq<string>, skipped: seq<string>)
    requires i == |args| || (i < |args| && args[i] == "--")
    requires forall k :: 0 <= k < |skipped| ==> NonOption(skipped[k])
    ensures var r := Rest(optstring, args, i, "");
            ReadsTheSame(optstring, before, r, skipped, "") && !Spoilt(optstring, r, skipped)
  {
    var r := Rest(optstring, args, i, "");
    var permuted := Permuted(before, r, skipped);
    if i == |args| {
      OperandsRead(optstring, permuted, |before|);
      assert permuted[|before|..] == skipped + r.operands;
    } else {
      assert permuted[|before|] == "--";
      assert permuted[|before| + 1..] == skipped + r.operands;
    }
  }

  lemma PermutedOperand(optstring: string, args: seq<string>, i: nat, before: seq<string>, skipped: seq<string>)
    requires i < |args| && NonOption(args[i])
    ensures var r, after := Rest(optstring, args, i, ""), Rest(optstring, args, i + 1, "");
            && (ReadsTheSame(optstring, before, r, skipped, "")
                <==> ReadsTheSame(optstring, before, after, skipped + [args[i]], ""))
            && (Spoilt(optstring, r, skipped) <==> Spoilt(optstring, after, skipped + [args[i]]))
  {
    RestSkips(optstring, args, i);
    hide Rest;
    var r, after := Rest(optstring, args, i, ""), Rest(optstring, args, i + 1, "");
    assert r.options == after.options && r.events == after.events;
    assert skipped + r.operands == (skipped + [args[i]]) + after.operands;
  }

  lemma PermutedElement(optstring: string, args: seq<string>, i: nat, before: seq<string>, skipped: seq<string>)
    requires i < |args| && !NonOption(args[i]) && args[i] != "--"
    ensures var r := Rest(optstring, args, i, "");
            && r == Rest(optstring, args, i, args[i][1..])
            && (ReadsTheSame(optstring, before, r, skipped, "")
                <==> ReadsTheSame(optstring, before, r, skipped, args[i][1..]))
  {
    InProgress(optstring, args, i, args[i][1..]);
    hide FirstOption, More;
    var r := Rest(optstring, args, i, "");
    assert Permuted(before, r, skipped)[|before|] == args[i];
  }

  lemma PermutedMissing(optstring: string, args: seq<string>, i: nat, text: string, before: seq<string>,
                        skipped: seq<string>)
    requires i < |args| && MissingAt(optstring, args, i, text)
    ensures var r := Rest(optstring, args, i, text);
            ReadsTheSame(optstring, before, r, skipped, text) <==> !Spoilt(optstring, r, skipped)
  {
    var r := Rest(optstring, args, i, text);
    assert Rest(optstring, args, i + 1, "") == Parse([], [], []);
    var permuted := Permuted(before, r, skipped);
    assert args[i..i + 1] == [args[i]];
    if skipped == [] {
      assert permuted == before + [args[i]];
      FirstOptionMoves(optstring, args, i, text, permuted, |before|);
      assert Rest(optstring, permuted, |permuted|, "") == Parse([], [], []);
    } else {
      assert Rest(optstring, permuted, |before|, text).events[0].arg.Some?;
    }
  }

  lemma Cancel(e: seq<Event>, o: seq<string>, x: Parse, y: Parse)
    ensures More(e, o, [], x) == More(e, o, [], y) <==> x == y
  {
    assert x.events == (e + x.events)[|e|..] && y.events == (e + y.events)[|e|..];
    assert x.options == (o + x.options)[|o|..] && y.options == (o + y.options)[|o|..];
    assert x.operands == [] + x.operands && y.operands == [] + y.operands;
  }

  lemma FirstOptionPermuted(optstring: string, args: seq<string>, i: nat, text: string, before: seq<string>,
                            tail: seq<string>)
    requires i < |args| && text != "" && !MissingAt(optstring, args, i, text)
    requires FirstOption(optstring, args, i, text).next == i ==> tail != []
    ensures var f := FirstOption(optstring, args, i, text);
            var permuted := before + (args[i..f.next] + tail);
            && |before| < |permuted| && permuted[|before|..|before| + (f.next - i)] == args[i..f.next]
            && FirstOption(optstring, permuted, |before|, text) == f.(next := |before| + (f.next - i))
  {
  }

  lemma PermutedOption(optstring: string, args: seq<string>, i: nat, text: string, before: seq<string>,
                       skipped: seq<string>)
    requires i < |args| && text != "" && !MissingAt(optstring, args, i, text)
    ensures var f := FirstOption(optstring, args, i, text);
            var r, after := Rest(optstring, args, i, text), Rest(optstring, args, f.next, f.text);
            && (ReadsTheSame(optstring, before, r, skipped, text)
                <==> ReadsTheSame(optstring, before + args[i..f.next], after, skipped, f.text))
  {
    hide FirstOption, KindOf, Rest, Permuted, NonOption;
    InProgress(optstring, args, i, text);
    var f := FirstOption(optstring, args, i, text);
    var r, after := Rest(optstring, args, i, text), Rest(optstring, args, f.next, f.text);
    RestReads(optstring, args, i, text);
    assert f.next == i ==> r.options == after.options;
    FirstOptionPermuted(optstring, args, i, text, before, after.options + (skipped + after.operands));
    var permuted := Permuted(before, r, skipped);
    var before' := before + args[i..f.next];
    assert r.operands == after.operands;
    PermutedAgain(before, r, args[i..f.next], after, skipped);
    RestReads(optstring, permuted, |before|, text);
    Cancel([f.event], args[i..f.next], Rest(optstring, permuted, |before'|, f.text),
           after.(operands := skipped + after.operands));
  }

  lemma PermutedAgain(before: seq<string>, r: Parse, taken: seq<string>, after: Parse, skipped: seq<string>)
    requires r.options == taken + after.options && r.operands == after.operands
    ensures && Permuted(before, r, skipped) == Permuted(before + taken, after, skipped)
            && Permuted(before, r, skipped) == before + (taken + (after.options + (skipped + after.operands)))
  {
  }

  lemma RestReads(optstring: string, args: seq<string>, i: nat, text: string)
    requires i < |args| && text != ""
    ensures var f := FirstOption(optstring, args, i, text);
            Rest(optstring, args, i, text)
              == More([f.event], args[i..f.next], [], Rest(optstring, args, f.next, f.text))
  {
  }

  lemma LastEvent(optstring: string, args: seq<string>, i: nat, text: string, skipped: seq<string>)
    requires i < |args| && text != "" && !MissingAt(optstring, args, i, text)
    ensures var f := FirstOption(optstring, args, i, text);
            var r, after := Rest(optstring, args, i, text), Rest(optstring, args, f.next, f.text);
            Spoilt(optstring, r, skipped) <==> Spoilt(optstring, after, skipped)
  {
  }

  /** The list that the scan leaves reads as the given one did, with nothing left to move, iff no option
      lacks its argument while there are non-options. */
  lemma PermutingKeepsTheMeaning(optstring: string, args: seq<string>)
    requires args != []
    ensures var r := Rest(optstring, args, 1, "");
            Rest(optstring, args[..1] + r.options + r.operands, 1, "") == r
            <==> !(ArgumentMissing(optstring, r) && r.operands != [])
  {
    hide Rest;
    var r := Rest(optstring, args, 1, "");
    PermutedReads(optstring, args, 1, "", args[..1], []);
    assert [] + r.operands == r.operands;
  }

  function Rotated<T>(s: seq<T>, bottom: nat, middle: nat, top: nat): (r: seq<T>)
    requires bottom <= middle <= top <= |s|
    ensures |r| == |s|
  {
    s[..bottom] + s[middle..top] + s[bottom..middle] + s[top..]
  }

  function BlocksSwapped<T>(s: seq<T>, x: nat, y: nat, len: nat): (r: seq<T>)
    requires x + len <= y && y + len <= |s|
    ensures |r| == |s|
  {
    s[..x] + s[y..y + len] + s[x + len..y] + s[x..x + len] + s[y + len..]
  }

  lemma BlocksAt<T>(s: seq<T>, x: nat, y: nat, len: nat)
    requires x + len <= y && y + len <= |s|
    ensures forall k :: 0 <= k < |s| ==>
              BlocksSwapped(s, x, y, len)[k]
              == s[if x <= k < x + len then k - x + y else if y <= k < y + len then k - y + x else k]
  {
  }

  /** Swapping the shorter segment with the far end of the longer one leaves a smaller rotation. */
  lemma ShortBottom<T>(s: seq<T>, bottom: nat, middle: nat, top: nat)
    requires bottom <= middle <= top <= |s| && middle - bottom <= top - middle
    ensures Rotated(BlocksSwapped(s, bottom, top - (middle - bottom), middle - bottom), bottom, middle,
                    top - (middle - bottom))
            == Rotated(s, bottom, middle, top)
  {
    var t, len := top - (middle - bottom), middle - bottom;
    var b := BlocksSwapped(s, bottom, t, len);
    BlocksAt(s, bottom, t, len);
    assert b[..bottom] == s[..bottom];
    assert b[middle..t] + b[bottom..middle] == s[middle..top];
    assert b[t..] == s[bottom..middle] + s[top..];
  }

  lemma ShortTop<T>(s: seq<T>, bottom: nat, middle: nat, top: nat)
    requires bottom <= middle <= top <= |s| && top - middle <= middle - bottom
    ensures Rotated(BlocksSwapped(s, bottom, middle, top - middle), bottom + (top - middle), middle, top)
            == Rotated(s, bottom, middle, top)
  {
    var m, len := bottom + (top - middle), top - middle;
    var b := BlocksSwapped(s, bottom, middle, len);
    assert b[..m] == s[..bottom] + s[middle..top] && b[m..middle] == s[m..middle];
    assert b[middle..top] == s[bottom..m] && b[top..] == s[top..];
    assert s[bottom..middle] == s[bottom..m] + s[m..middle];
  }

  method SwapBlocks<T>(a: array<T>, x: nat, y: nat, len: nat)
    requires x + len <= y && y + len <= a.Length
    modifies a
    ensures a[..] == BlocksSwapped(old(a[..]), x, y, len)
  {
    for i := 0 to len
      invariant forall k :: 0 <= k < a.Length ==>
                  a[k] == if x <= k < x + i then old(a[k - x + y])
                          else if y <= k < y + i then old(a[k - y + x])
                          else old(a[k])
    {
      a[x + i], a[y + i] := a[y + i], a[x + i];
    }
  }

  lemma NothingToRotate<T>(s: seq<T>, bottom: nat, middle: nat, top: nat)
    requires bottom <= middle <= top <= |s| && (bottom == middle || middle == top)
    ensures Rotated(s, bottom, middle, top) == s
  {
  }

  /** The loop of exchange: the segments [first, last) and [last, end) change places. */
  method Rotate<T>(a: array<T>, first: nat, last: nat, end: nat)
    requires first <= last <= end <= a.Length
    modifies a
    ensures a[..] == Rotated(old(a[..]), first, last, end)
  {
    hide Rotated, BlocksSwapped;
    var bottom, middle, top := first, last, end;
    while top > middle > bottom
      invariant first <= bottom <= middle <= top <= end
      invariant Rotated(a[..], bottom, middle, top) == Rotated(old(a[..]), first, last, end)
      decreases top - bottom
    {
      ghost var was := a[..];
      if top - middle > middle - bottom {
        var len := middle - bottom;
        SwapBlocks(a, bottom, top - len, len);
        ShortBottom(was, bottom, middle, top);
        top := top - len;
      } else {
        var len := top - middle;
        SwapBlocks(a, bottom, middle, len);
        ShortTop(was, bottom, middle, top);
        bottom := bottom + len;
      }
    }
    NothingToRotate(a[..], bottom, middle, top);
  }

  /** argv is program name and options read, non-options skipped, options read since, and the rest,
      which has not moved. */
  ghost predicate Segments(argv: seq<string>, original: seq<string>, first: nat, last: nat, optind: nat,
                           options: seq<string>, operands: seq<string>)
  {
    && |argv| == |original| && 1 <= first <= last <= optind <= |argv|
    && argv[..first] + argv[last..optind] == original[..1] + options
    && argv[first..last] == operands
    && argv[optind..] == original[optind..]
  }

  lemma SameTail(argv: seq<string>, original: seq<string>, first: nat, last: nat, optind: nat,
                 options: seq<string>, operands: seq<string>)
    requires Segments(argv, original, first, last, optind, options, operands)
    ensures last <= optind <= |argv| == |original|
    ensures forall k :: optind <= k < |argv| ==> argv[k] == original[k]
  {
  }

  /** Passing over n elements of an option. */
  lemma OptionPassed(argv: seq<string>, original: seq<string>, first: nat, last: nat, optind: nat,
                     options: seq<string>, operands: seq<string>, n: nat)
    requires Segments(argv, original, first, last, optind, options, operands) && optind + n <= |argv|
    ensures Segments(argv, original, first, last, optind + n, options + original[optind..optind + n], operands)
  {
    assert argv[last..optind + n] == argv[last..optind] + argv[optind..][..n];
    assert argv[..first] + argv[last..optind + n] == original[..1] + options + argv[optind..][..n];
    assert original[optind..][..n] == original[optind..optind + n];
    assert argv[optind + n..] == argv[optind..][n..];
    assert original[optind + n..] == original[optind..][n..];
  }

  /** Passing over a non-option that adjoins the ones skipped. */
  lemma OperandPassed(argv: seq<string>, original: seq<string>, first: nat, optind: nat,
                      options: seq<string>, operands: seq<string>)
    requires Segments(argv, original, first, optind, optind, options, operands) && optind < |argv|
    ensures Segments(argv, original, first, optind + 1, optind + 1, options, operands + [original[optind]])
  {
  }

  /** The exchange joins the options and makes the non-options adjoin the unread rest. */
  lemma ExchangeJoins(argv: seq<string>, original: seq<string>, first: nat, last: nat, optind: nat,
                      options: seq<string>, operands: seq<string>)
    requires Segments(argv, original, first, last, optind, options, operands)
    ensures Segments(Rotated(argv, first, last, optind), original, first + (optind - last), optind, optind, options,
                     operands)
  {
  }

  /** After -- the rest joins the non-options. */
  lemma AllOperands(argv: seq<string>, original: seq<string>, first: nat, optind: nat,
                    options: seq<string>, operands: seq<string>)
    requires Segments(argv, original, first, optind, optind, options, operands)
    ensures Segments(argv, original, first, |argv|, |argv|, options, operands + original[optind..])
  {
  }

  lemma RestSkips(optstring: string, args: seq<string>, i: nat)
    requires i < |args| && NonOption(args[i])
    ensures Rest(optstring, args, i, "") == More([], [], [args[i]], Rest(optstring, args, i + 1, ""))
  {
  }

  lemma RestEnds(optstring: string, args: seq<string>, i: nat)
    requires i < |args| && args[i] == "--"
    ensures Rest(optstring, args, i, "") == Parse([], ["--"], args[i + 1..])
    ensures Rest(optstring, args, |args|, "") == Parse([], [], [])
  {
  }

  lemma MoreMore(e: seq<Event>, o: seq<string>, p: seq<string>, e': seq<Event>, o': seq<string>, p': seq<string>,
                 rest: Parse)
    ensures More(e, o, p, More(e', o', p', rest)) == More(e + e', o + o', p + p', rest)
  {
  }

  /** The event is what the caller sees: the result, optarg, and optopt, which keeps its value if nothing
      is put in it. */
  predicate Reports(e: Event, result: char, optarg: Maybe<string>, optopt: char, before: char) {
    e.result == result && e.arg == optarg && optopt == if e.bad.Some? then e.bad.value else before
  }

  class Scanner {
    const optstring: string
    const argv: array<string>
    var optind: nat
    var firstNonopt: nat
    var lastNonopt: nat
    var nextchar: string
    var initialized: bool
    var optarg: Maybe<string>
    var optopt: char

    /** The argument list as given, and what has been read of it. */
    ghost const original: seq<string>
    ghost var read: Parse
    ghost var finished: bool

    ghost predicate FourSegments()
      reads `optind, `firstNonopt, `lastNonopt, `read, argv
    {
      Segments(argv[..], original, firstNonopt, lastNonopt, optind, read.options, read.operands)
    }

    /** What is read and what remains make up the reading of the original list. */
    ghost predicate OnTrack()
      reads `optind, `nextchar, `read
    {
      && 1 <= optind <= |original| && (nextchar != "" ==> optind < |original|)
      && Rest(optstring, original, 1, "")
         == More(read.events, read.options, read.operands, Rest(optstring, original, optind, nextchar))
    }

    ghost predicate Valid()
      reads this, argv
    {
      && argv.Length == |original|
      && (!initialized ==> optind == 1 && nextchar == "" && read == Parse([], [], []) && argv[..] == original)
      && (initialized ==> FourSegments() && OnTrack())
    }

    constructor (optstring: string, argv: array<string>)
      requires Permutes(optstring)
      ensures Valid() && this.argv == argv && this.optstring == optstring && original == argv[..]
      ensures read == Parse([], [], []) && !finished
    {
      this.optstring, this.argv, original := optstring, argv, argv[..];
      optind, firstNonopt, lastNonopt, nextchar, initialized := 1, 0, 0, "", false;
      optarg, optopt := None, '?';
      read, finished := Parse([], [], []), false;
    }

    /** Exchanges the segments [firstNonopt, lastNonopt) and [lastNonopt, optind). */
    method Exchange()
      requires firstNonopt <= lastNonopt <= optind <= argv.Length
      modifies argv, `firstNonopt, `lastNonopt
      ensures argv[..] == Rotated(old(argv[..]), old(firstNonopt), old(lastNonopt), optind)
      ensures firstNonopt == old(firstNonopt) + (optind - old(lastNonopt)) && lastNonopt == optind
    {
      Rotate(argv, firstNonopt, lastNonopt, optind);
      firstNonopt := firstNonopt + (optind - lastNonopt);
      lastNonopt := optind;
    }

    /** The scan is over: the options with their arguments, then the non-options, both in their
        original order, and optind between them. */
    ghost predicate Complete()
      reads `optind, `read, argv
    {
      && argv.Length == |original| > 0
      && read == Rest(optstring, original, 1, "")
      && argv[..] == original[..1] + read.options + read.operands
      && optind == 1 + |read.options|
    }

    method Initialize()
      requires Valid() && !initialized && argv.Length > 0
      modifies `firstNonopt, `lastNonopt, `nextchar, `initialized
      ensures Valid() && initialized && nextchar == ""
    {
      hide Rest;
      firstNonopt, lastNonopt := optind, optind;
      nextchar := "";
      initialized := true;
    }

    /** The non-options skipped are brought behind the options read since. */
    method ExchangeSkipped()
      requires Valid() && initialized
      modifies argv, `firstNonopt, `lastNonopt
      ensures Valid() && lastNonopt == optind
    {
      hide Rotated, Rest;
      lastNonopt := Min(lastNonopt, optind);
      firstNonopt := Min(firstNonopt, optind);
      ExchangeJoins(argv[..], original, firstNonopt, lastNonopt, optind, read.options, read.operands);
      if firstNonopt != lastNonopt && lastNonopt != optind {
        Exchange();
      } else if lastNonopt != optind {
        firstNonopt := optind;
        lastNonopt := optind;
      }
    }

    /** The elements from i up to n are non-options: empty, or no dash before more. */
    ghost predicate Skipped(i: nat, n: nat) {
      i <= n <= |original| && forall k :: i <= k < n ==>
        original[k] == "" || original[k][0] != '-' || original[k] == "-"
    }

    /** Further non-options join the ones skipped. */
    method SkipNonOptions()
      requires Valid() && initialized && nextchar == "" && lastNonopt == optind
      modifies `optind, `lastNonopt, `read
      ensures Valid() && lastNonopt == optind && read.events == old(read.events)
      ensures optind < argv.Length ==> !NonOption(argv[optind])
      ensures Skipped(old(optind), optind)
    {
      hide Rest;
      while optind < argv.Length && NonOption(argv[optind])
        invariant Valid() && initialized && lastNonopt == optind && read.events == old(read.events)
        invariant Skipped(old(optind), optind)
      {
        assert argv[optind] == argv[optind..][0] == original[optind..][0] == original[optind];
        RestSkips(optstring, original, optind);
        MoreMore(read.events, read.options, read.operands, [], [], [original[optind]],
                 Rest(optstring, original, optind + 1, ""));
        OperandPassed(argv[..], original, firstNonopt, optind, read.options, read.operands);
        read := read.(operands := read.operands + [original[optind]]);
        optind := optind + 1;
        lastNonopt := optind;
      }
    }

    /** The element -- counts as an option, and everything after it as non-options. */
    method EndOfOptions()
      requires Valid() && initialized && nextchar == "" && lastNonopt == optind
      requires optind < argv.Length && argv[optind] == "--"
      modifies argv, `optind, `firstNonopt, `lastNonopt, `read
      ensures Valid() && optind == lastNonopt == argv.Length && read.events == old(read.events)
      ensures original[old(optind)] == "--"
    {
      hide Rotated, Rest;
      ghost var rest := original[optind + 1..];
      assert argv[optind] == argv[optind..][0] == original[optind..][0] == original[optind];
      RestEnds(optstring, original, optind);
      assert read.events + [] == read.events;
      OptionPassed(argv[..], original, firstNonopt, lastNonopt, optind, read.options, read.operands, 1);
      read := read.(options := read.options + ["--"]);
      optind := optind + 1;
      ExchangeJoins(argv[..], original, firstNonopt, lastNonopt, optind, read.options, read.operands);
      if firstNonopt != lastNonopt && lastNonopt != optind {
        Exchange();
      } else if firstNonopt == lastNonopt {
        firstNonopt := optind;
      }
      AllOperands(argv[..], original, firstNonopt, optind, read.options, read.operands);
      read := read.(operands := read.operands + rest);
      lastNonopt := argv.Length;
      optind := argv.Length;
    }

    /** The first element from i on that is no non-option is element n, a dash and text. */
    ghost predicate EntersFrom(i: nat, n: nat, text: string) {
      Skipped(i, n) && n < |original| && original[n] == "-" + text && text != "" && text != "-"
    }

    /** From element i on there are non-options only, or the first that is none is --. */
    ghost predicate EndsFrom(i: nat) {
      exists n: nat :: Skipped(i, n) && (n == |original| || original[n] == "--")
    }

    /** Advances to the next option element, permuting, or ends the scan. */
    method Advance() returns (atEnd: bool)
      requires Valid() && initialized && nextchar == ""
      modifies argv, `optind, `firstNonopt, `lastNonopt, `nextchar, `read
      ensures read.events == old(read.events)
      ensures if atEnd then Complete() && EndsFrom(old(optind))
              else Valid() && nextchar != "" && EntersFrom(old(optind), optind, nextchar)
    {
      hide Rest, Segments;
      ExchangeSkipped();
      SkipNonOptions();
      ghost var n := optind;
      if optind != argv.Length && argv[optind] == "--" {
        EndOfOptions();
      }
      atEnd := optind == argv.Length;
      if atEnd {
        assert Skipped(old(optind), n) && (n == |original| || original[n] == "--");
        BackOver();
      } else {
        EnterOption();
      }
    }

    /** Backs over the non-options skipped. */
    method BackOver()
      requires Valid() && initialized && nextchar == "" && optind == lastNonopt == argv.Length
      modifies `optind
      ensures Complete()
    {
      assert argv[..] == argv[..firstNonopt] + argv[lastNonopt..optind] + argv[firstNonopt..lastNonopt];
      assert |argv[..firstNonopt]| == |original[..1] + read.options|;
      if firstNonopt != lastNonopt {
        optind := firstNonopt;
      }
    }

    /** Skips the initial punctuation. */
    method EnterOption()
      requires Valid() && initialized && nextchar == "" && optind < argv.Length
      requires !NonOption(argv[optind]) && argv[optind] != "--"
      modifies `nextchar
      ensures Valid() && nextchar != "" && nextchar != "-" && original[optind] == "-" + nextchar
    {
      hide More;
      assert argv[optind] == argv[optind..][0] == original[optind..][0] == original[optind];
      nextchar := argv[optind][1..];
    }

    /** Looks at the next option character and takes its argument, if it has one. */
    method TakeOption() returns (c: char, ghost f: First)
      requires nextchar != "" && optind < argv.Length && optarg == None
      modifies `optind, `nextchar, `optarg, `optopt
      ensures optind == f.next && nextchar == f.text && Reports(f.event, c, optarg, optopt, old(optopt))
      ensures Answers(optstring, argv[..], old(optind), old(nextchar), f)
    {
      f := FirstOption(optstring, argv[..], optind, nextchar);
      FirstOptionAnswers(optstring, argv[..], optind, nextchar, f);
      hide Answers;
      c := nextchar[0];
      nextchar := nextchar[1..];
      if nextchar == "" {
        optind := optind + 1;
      }
      match KindOf(optstring, c) {
        case Unknown =>
          optopt := c;
          c := '?';
        case Plain =>
        case Optional =>
          if nextchar != "" {
            optarg := Some(nextchar);
            optind := optind + 1;
          } else {
            optarg := None;
          }
          nextchar := "";
        case Required =>
          if nextchar != "" {
            optarg := Some(nextchar);
            optind := optind + 1;
          } else if optind == argv.Length {
            optopt := c;
            c := MissingResult(optstring);
          } else {
            optarg := Some(argv[optind]);
            optind := optind + 1;
          }
          nextchar := "";
      }
    }

    /** The option taken moves from what remains to what is read. */
    method ReadOption() returns (c: char, ghost f: First)
      requires Valid() && initialized && nextchar != "" && optarg == None
      modifies `optind, `nextchar, `optarg, `optopt, `read
      ensures Valid() && |read.events| == |old(read.events)| + 1 && old(read.events) <= read.events
      ensures Reports(read.events[|old(read.events)|], c, optarg, optopt, old(optopt))
      ensures f == First(read.events[|old(read.events)|], optind, nextchar)
      ensures Answers(optstring, original, old(optind), old(nextchar), f)
    {
      hide Segments, Rest, FirstOption, Answers;
      SameTail(argv[..], original, firstNonopt, lastNonopt, optind, read.options, read.operands);
      ghost var i, text := optind, nextchar;
      f := FirstOption(optstring, original, i, text);
      FirstOptionAnswers(optstring, original, i, text, f);
      RestReads(optstring, original, i, text);
      FirstOptionMoves(optstring, original, i, text, argv[..], i);
      ghost var taken;
      c, taken := TakeOption();
      FirstOptionAnswers(optstring, argv[..], i, text, taken);
      MoreMore(read.events, read.options, read.operands, [f.event], original[i..f.next], [],
               Rest(optstring, original, f.next, f.text));
      OptionPassed(argv[..], original, firstNonopt, lastNonopt, i, read.options, read.operands, f.next - i);
      assert read.operands + [] == read.operands;
      read := Parse(read.events + [f.event], read.options + original[i..f.next], read.operands);
    }

    ghost function Total(): int
    {
      if original == [] then 0 else |Rest(optstring, original, 1, "").events|
    }

    /** One call: it looks at text in element i of the original list. */
    method Getopt() returns (r: Maybe<char>, ghost i: nat, ghost text: string)
      requires Valid()
      modifies this, argv
      ensures r.None? ==> read.events == old(read.events) && (argv.Length > 0 ==> Complete())
      ensures r.Some? ==>
                && Valid() && initialized && |read.events| == |old(read.events)| + 1
                && old(read.events) <= read.events
      ensures r.Some? ==> Reports(read.events[|old(read.events)|], r.value, optarg, optopt, old(optopt))
      ensures r.Some? ==>
                && text != "" && i < |original|
                && (if old(nextchar) != "" then i == old(optind) && text == old(nextchar)
                    else EntersFrom(old(optind), i, text))
                && Answers(optstring, original, i, text, First(read.events[|old(read.events)|], optind, nextchar))
      ensures r.None? && argv.Length > 0 ==> old(nextchar) == "" && EndsFrom(old(optind))
    {
      hide Rest, Segments, Answers, Skipped;
      i, text := optind, nextchar;
      if argv.Length < 1 {
        r := None;
        return;
      }
      optarg := None;
      if !initialized {
        Initialize();
      }
      if nextchar == "" {
        var atEnd := Advance();
        if atEnd {
          r := None;
          return;
        }
        i, text := optind, nextchar;
      }
      assert i < |original|;
      var c, _ := ReadOption();
      r := Some(c);
    }
  }

  /** The events told so far, as the caller has seen them. */
  ghost predicate Told(found: seq<(char, Maybe<string>)>, events: seq<Event>) {
    |found| <= |events| && forall k :: 0 <= k < |found| ==> found[k] == (events[k].result, events[k].arg)
  }

  lemma ToldMore(found: seq<(char, Maybe<string>)>, was: seq<Event>, events: seq<Event>)
    requires Told(found, was) && |found| < |was| && was <= events
    ensures Told(found + [(was[|found|].result, was[|found|].arg)], events)
  {
  }

  /** Calls getopt until it says that there are no more options. */
  method Scan(s: Scanner) returns (found: seq<(char, Maybe<string>)>)
    requires s.Valid() && !s.initialized
    modifies s, s.argv
    ensures s.argv.Length > 0 ==> s.Complete()
    ensures |found| == |s.read.events| && Told(found, s.read.events)
  {
    hide Rest, Segments;
    found := [];
    ghost var i, text;
    var r;
    r, i, text := s.Getopt();
    while r.Some?
      invariant r.Some? ==> s.Valid() && s.initialized
      invariant r.None? ==> s.argv.Length > 0 ==> s.Complete()
      invariant |s.read.events| == |found| + if r.Some? then 1 else 0
      invariant Told(found, s.read.events)
      invariant r.Some? ==> (s.read.events[|found|].result, s.read.events[|found|].arg) == (r.value, s.optarg)
      decreases s.Total() - |found|, r
    {
      ghost var was, before := s.read.events, found;
      found := found + [(r.value, s.optarg)];
      r, i, text := s.Getopt();
      ToldMore(before, was, s.read.events);
    }
  }
}
