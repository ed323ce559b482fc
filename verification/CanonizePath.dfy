/** Canonical paths: empty and "." parts go, ".." takes back the name before it while the path is not above
    its start. */
module CanonicalPaths {
  import opened Options

  // ---------------------------------------------------------------- parts of a path

  /** A C string ends at its first NUL. */
  function CString(s: string): string {
    if s == "" || s[0] == '\0' then "" else [s[0]] + CString(s[1..])
  }

  /** The parts ended by a slash, and the one after the last slash. */
  datatype Parts = Parts(done: seq<string>, last: string)

  function Split(s: string): Parts {
    if s == "" then Parts([], "")
    else
      var p, c := Split(s[..|s| - 1]), s[|s| - 1];
      if c == '/' then Parts(p.done + [p.last], "") else Parts(p.done, p.last + [c])
  }

  function AllParts(s: string): seq<string> {
    Split(s).done + [Split(s).last]
  }

  predicate Absolute(s: string) {
    s != "" && s[0] == '/'
  }

  // ---------------------------------------------------------------- walking along the parts

  /** level is the number of names less the number of ".." so far. */
  datatype Walk = Walk(stack: seq<string>, level: int, failed: bool)

  function Pop(stack: seq<string>): seq<string> {
    if stack == [] then [] else stack[..|stack| - 1]
  }

  function Up(w: Walk, guarded: bool): Walk {
    if guarded && w.level <= 0 then w.(level := w.level - 1, failed := true)
    else Walk(if w.level >= 1 then Pop(w.stack) else w.stack + [".."], w.level - 1, false)
  }

  function Enter(w: Walk, part: string, guarded: bool): Walk {
    if w.failed || part == "" || part == "." then w
    else if part == ".." then Up(w, guarded)
    else Walk(w.stack + [part], w.level + 1, false)
  }

  function Along(parts: seq<string>, guarded: bool): Walk {
    if parts == [] then Walk([], 0, false)
    else Enter(Along(parts[..|parts| - 1], guarded), parts[|parts| - 1], guarded)
  }

  // ---------------------------------------------------------------- printing

  function Printed(slash: bool, stack: seq<string>): string {
    if stack == [] then ""
    else Printed(slash, stack[..|stack| - 1]) + (if |stack| == 1 && !slash then "" else "/") + stack[|stack| - 1]
  }

  function PrintedOrRoot(slash: bool, stack: seq<string>): string {
    if stack != [] then Printed(slash, stack) else if slash then "/" else "."
  }

  /** The canonical path, or None for a protected relative path that leaves its start. */
  function Canonical(path: string, protect: bool): Option<string> {
    var s := CString(path);
    var w := Along(AllParts(s), protect && !Absolute(s));
    if w.failed then None else Some(PrintedOrRoot(Absolute(s), w.stack))
  }

  // ---------------------------------------------------------------- the method

  /** What has been read of the current part, by state: nothing, ".", a name in cur, "..". */
  function PartSoFar(state: int, cur: string): string {
    if state == 1 then "." else if state == 2 then cur else if state == 3 then ".." else ""
  }

  /** The states keep names apart from "." and "..", and cur empty outside names. */
  predicate StateOk(state: int, cur: string) {
    && 0 <= state <= 3
    && if state == 2 then cur != "" && cur != "." && cur != ".." else cur == ""
  }

  method CanonizePath(path: string, protect: bool) returns (ok: bool, result: string)
    ensures ok <==> Canonical(path, protect).Some?
    ensures ok ==> result == Canonical(path, protect).value
  {
    hide Split, Along, CString, Printed;
    var profs: seq<string> := [];
    var cur := "";
    var level := 0;
    var crsr := 0;
    var state := 0;
    var slashStart := |path| > 0 && path[0] == '/';
    ghost var s := CString(path);
    CStringIs(path);
    ghost var guarded := protect && !slashStart;
    WalkStarts(s, guarded);
    while crsr < |path| && path[crsr] != '\0'
      invariant crsr <= |path| && crsr <= |s| && StateOk(state, cur)
      invariant PartSoFar(state, cur) == Split(s[..crsr]).last
      invariant Along(Split(s[..crsr]).done, guarded) == Walk(profs, level, false)
    {
      assert s[crsr] == path[crsr];
      SplitNext(s, crsr);
      if path[crsr] == '/' {
        var left;
        profs, level, left := EndPart(profs, level, state, cur, protect, slashStart, Split(s[..crsr]).done);
        if !left {
          FailsForGood(s, crsr, guarded);
          return false, "";
        }
        state, cur := 0, "";
      } else {
        cur, state := ReadChar(state, cur, path[crsr]);
      }
      crsr := crsr + 1;
    }
    assert s[..crsr] == s;
    var left;
    profs, level, left := EndPart(profs, level, state, cur, protect, slashStart, Split(s).done);
    if !left {
      return false, "";
    }
    ok := true;
    result := Print(profs, slashStart);
  }

  lemma WalkStarts(s: string, guarded: bool)
    ensures Split(s[..0]) == Parts([], "") && Along([], guarded) == Walk([], 0, false)
  {
  }

  /** The character branches of the automaton. */
  method ReadChar(state: int, cur: string, c: char) returns (cur': string, state': int)
    requires StateOk(state, cur) && c != '/'
    ensures StateOk(state', cur') && PartSoFar(state', cur') == PartSoFar(state, cur) + [c]
  {
    if state == 0 {
      if c == '.' {
        cur', state' := cur, 1;
      } else {
        cur', state' := cur + [c], 2;
        assert cur'[0] == c;
      }
    } else if state == 1 {
      if c == '.' {
        cur', state' := cur, 3;
      } else {
        cur', state' := cur + ['.', c], 2;
        assert cur'[1] == c;
      }
    } else if state == 2 {
      cur', state' := cur + [c], 2;
      assert cur'[..|cur|] == cur;
    } else {
      cur', state' := cur + ['.', '.', c], 2;
      assert |cur'| == 3;
    }
  }

  /** The branches for a slash or the end. The pop never meets an empty stack, nor takes off a "..". */
  method EndPart(profs: seq<string>, level: int, state: int, cur: string, protect: bool, slashStart: bool, ghost done: seq<string>)
      returns (profs': seq<string>, level': int, ok: bool)
    requires StateOk(state, cur) && Along(done, protect && !slashStart) == Walk(profs, level, false)
    ensures var w := Along(done + [PartSoFar(state, cur)], protect && !slashStart);
            ok == !w.failed && (ok ==> w == Walk(profs', level', false))
  {
    ghost var part := PartSoFar(state, cur);
    assert (done + [part])[..|done|] == done;
    profs', level' := profs, level;
    if state == 2 {
      level' := level + 1;
      profs' := profs + [cur];
    } else if state == 3 {
      level' := level - 1;
      if protect && !slashStart && level' < 0 {
        return profs', level', false;
      }
      if level' >= 0 {
        TopIsName(done, protect && !slashStart);
        assert |profs| > 0 && profs[|profs| - 1] != "..";
        profs' := profs[..|profs| - 1];
      } else {
        profs' := profs + [".."];
      }
    }
    ok := true;
  }

  method Print(profs: seq<string>, slashStart: bool) returns (result: string)
    ensures result == PrintedOrRoot(slashStart, profs)
  {
    var first := true;
    result := "";
    if |profs| > 0 {
      for i := 0 to |profs|
        invariant result == Printed(slashStart, profs[..i]) && first == (i == 0)
      {
        assert profs[..i + 1][..i] == profs[..i];
        if !first || slashStart {
          result := result + "/";
        }
        first := false;
        result := result + profs[i];
      }
      assert profs[..|profs|] == profs;
    } else {
      result := if slashStart then "/" else ".";
    }
  }

  // ---------------------------------------------------------------- about parts

  lemma {:induction false} CStringIs(s: string)
    ensures |CString(s)| <= |s| && '\0' !in CString(s)
    ensures forall i :: 0 <= i < |CString(s)| ==> CString(s)[i] == s[i] != '\0'
    ensures |CString(s)| < |s| ==> s[|CString(s)|] == '\0'
  {
    if s != "" && s[0] != '\0' {
      CStringIs(s[1..]);
    }
  }

  lemma {:induction false} CStringNoNul(s: string)
    requires '\0' !in s
    ensures CString(s) == s
  {
    if s != "" {
      CStringNoNul(s[1..]);
    }
  }

  lemma SplitNext(s: string, i: nat)
    requires i < |s|
    ensures var p := Split(s[..i]);
            Split(s[..i + 1]) == if s[i] == '/' then Parts(p.done + [p.last], "") else Parts(p.done, p.last + [s[i]])
  {
    assert s[..i + 1][..i] == s[..i];
  }

  /** Parts are text without slashes, taken from the string. */
  ghost predicate PlainText(part: string) {
    '/' !in part && '\0' !in part
  }

  lemma {:induction false} PartsArePlain(s: string)
    requires '\0' !in s
    ensures PlainText(Split(s).last) && forall p :: p in Split(s).done ==> PlainText(p)
  {
    if s != "" {
      PartsArePlain(s[..|s| - 1]);
      assert s[|s| - 1] in s;
    }
  }

  lemma {:induction false} SplitText(s: string, text: string)
    requires '/' !in text
    ensures Split(s + text) == Parts(Split(s).done, Split(s).last + text)
  {
    if text == "" {
      assert s + text == s && Split(s).last + text == Split(s).last;
    } else {
      var n := |text| - 1;
      assert (s + text)[..|s + text| - 1] == s + text[..n];
      SplitText(s, text[..n]);
      assert text == text[..n] + [text[n]];
      assert text[n] in text;
      assert Split(s).last + text == Split(s).last + text[..n] + [text[n]];
    }
  }

  lemma SplitSlash(s: string)
    ensures Split(s + "/") == Parts(Split(s).done + [Split(s).last], "")
  {
    assert (s + "/")[..|s + "/"| - 1] == s;
  }

  // ---------------------------------------------------------------- about walks

  lemma {:induction false} AlongFails(parts: seq<string>, more: seq<string>, guarded: bool)
    requires Along(parts, guarded).failed
    ensures Along(parts + more, guarded).failed
  {
    if more == [] {
      assert parts + more == parts;
    } else {
      assert (parts + more)[..|parts + more| - 1] == parts + more[..|more| - 1];
      AlongFails(parts, more[..|more| - 1], guarded);
    }
  }

  lemma {:induction false} SplitGrows(s: string, i: nat)
    requires i <= |s|
    ensures Split(s[..i]).done <= Split(s).done
    decreases |s| - i
  {
    if i < |s| {
      SplitNext(s, i);
      SplitGrows(s, i + 1);
    } else {
      assert s[..i] == s;
    }
  }

  /** Failing at a slash is failing on the whole path. */
  lemma FailsForGood(s: string, i: nat, guarded: bool)
    requires i < |s| && s[i] == '/' && Along(Split(s[..i]).done + [Split(s[..i]).last], guarded).failed
    ensures Along(AllParts(s), guarded).failed
  {
    SplitNext(s, i);
    var parts := Split(s[..i]).done + [Split(s[..i]).last];
    if i + 1 == |s| {
      assert s[..i + 1] == s;
    }
    SplitGrows(s, i + 1);
    var more := AllParts(s)[|parts|..];
    assert AllParts(s) == parts + more;
    AlongFails(parts, more, guarded);
  }

  /** The number of names less the number of "..". */
  function Level(parts: seq<string>): int {
    if parts == [] then 0
    else
      var part := parts[|parts| - 1];
      Level(parts[..|parts| - 1]) + (if part == "" || part == "." then 0 else if part == ".." then -1 else 1)
  }

  /** A stack of proper parts in which each ".." stands where it would lead above the start. */
  ghost predicate Settled(stack: seq<string>) {
    && (forall i :: 0 <= i < |stack| ==> stack[i] != "" && stack[i] != ".")
    && (forall i :: 0 <= i < |stack| && stack[i] == ".." ==> Level(stack[..i + 1]) < 0)
  }

  lemma LevelPrefix(stack: seq<string>, part: string)
    ensures (stack + [part])[..|stack|] == stack
    ensures Level(stack + [part]) == Level(stack) + (if part == "" || part == "." then 0 else if part == ".." then -1 else 1)
  {
    assert (stack + [part])[..|stack|] == stack;
  }

  lemma SettledPush(stack: seq<string>, part: string)
    requires Settled(stack) && part != "" && part != "." && (part == ".." ==> Level(stack) <= 0)
    ensures Settled(stack + [part])
  {
    hide Level;
    var stack' := stack + [part];
    forall i | 0 <= i < |stack'| && stack'[i] == ".." ensures Level(stack'[..i + 1]) < 0 {
      UpStandsLow(stack, part, i);
    }
  }

  lemma UpStandsLow(stack: seq<string>, part: string, i: nat)
    requires Settled(stack) && (part == ".." ==> Level(stack) <= 0) && i <= |stack| && (stack + [part])[i] == ".."
    ensures Level((stack + [part])[..i + 1]) < 0
  {
    hide Level;
    if i < |stack| {
      SamePrefix(stack, part, i);
    } else {
      LevelPrefix(stack, part);
      assert (stack + [part])[..i + 1] == stack + [part];
    }
  }

  lemma SamePrefix(stack: seq<string>, part: string, i: nat)
    requires i < |stack|
    ensures (stack + [part])[i] == stack[i] && (stack + [part])[..i + 1] == stack[..i + 1]
  {
  }

  lemma SettledBelow(stack: seq<string>)
    requires Settled(stack)
    ensures Settled(Pop(stack))
  {
    hide Level;
    var below := Pop(stack);
    forall i | 0 <= i < |below| && below[i] == ".." ensures Level(below[..i + 1]) < 0 {
      assert below[..i + 1] == stack[..i + 1];
    }
  }

  lemma SettledPop(stack: seq<string>)
    requires Settled(stack) && Level(stack) >= 1
    ensures stack != [] && stack[|stack| - 1] != ".." && Settled(Pop(stack)) && Level(Pop(stack)) == Level(stack) - 1
  {
    assert stack[..|stack|] == stack;
    SettledBelow(stack);
  }

  /** While it has not failed, a walk's level is the level of what it read and of what it kept. */
  lemma {:induction false} AlongIs(parts: seq<string>, guarded: bool)
    requires !Along(parts, guarded).failed
    ensures var w := Along(parts, guarded); w.level == Level(parts) == Level(w.stack) && Settled(w.stack)
    ensures guarded ==> Along(parts, guarded).level >= 0 && ".." !in Along(parts, guarded).stack
  {
    if parts != [] {
      var before, part := parts[..|parts| - 1], parts[|parts| - 1];
      AlongIs(before, guarded);
      var w := Along(before, guarded);
      if part != "" && part != "." {
        if part == ".." && w.level >= 1 {
          SettledPop(w.stack);
        } else {
          SettledPush(w.stack, part);
          LevelPrefix(w.stack, part);
        }
      }
    }
  }

  lemma TopIsName(parts: seq<string>, guarded: bool)
    requires !Along(parts, guarded).failed && Along(parts, guarded).level >= 1
    ensures var stack := Along(parts, guarded).stack; stack != [] && stack[|stack| - 1] != ".."
  {
    AlongIs(parts, guarded);
    SettledPop(Along(parts, guarded).stack);
  }

  /** The first k parts hold more ".." than names. */
  ghost predicate AboveAt(parts: seq<string>, k: int) {
    0 <= k <= |parts| && Level(parts[..k]) < 0
  }

  /** A guarded walk fails exactly when some prefix has more ".." than names. */
  lemma {:induction false} AlongFailsWhen(parts: seq<string>, guarded: bool)
    ensures Along(parts, guarded).failed <==> guarded && exists k :: AboveAt(parts, k)
  {
    if parts == [] {
      assert parts[..0] == [];
    } else {
      var n := |parts| - 1;
      var before, part := parts[..n], parts[n];
      AlongFailsWhen(before, guarded);
      AboveSooner(parts, before);
      LevelPrefix(before, part);
      assert before + [part] == parts;
      if !Along(before, guarded).failed {
        AlongIs(before, guarded);
        assert guarded ==> !AboveAt(before, n) || AboveAt(parts, n + 1);
      }
    }
  }

  lemma AboveSooner(parts: seq<string>, before: seq<string>)
    requires parts != [] && before == parts[..|parts| - 1]
    ensures (exists k :: AboveAt(parts, k)) <==> (exists k :: AboveAt(before, k)) || Level(parts) < 0
  {
    hide Level;
    var n := |parts| - 1;
    assert parts[..n + 1] == parts;
    assert forall k :: 0 <= k <= n ==> before[..k] == parts[..k];
    if k :| AboveAt(before, k) {
      assert AboveAt(parts, k);
    }
    if Level(parts) < 0 {
      assert AboveAt(parts, n + 1);
    }
    if k :| AboveAt(parts, k) {
      if k <= n {
        assert AboveAt(before, k);
      }
    }
  }

  /** A settled stack walked along gives itself. */
  lemma {:induction false} AlongSettled(stack: seq<string>, guarded: bool)
    requires Settled(stack) && (guarded ==> ".." !in stack)
    ensures Along(stack, guarded) == Walk(stack, Level(stack), false)
  {
    if stack != [] {
      var n := |stack| - 1;
      var below := stack[..n];
      assert stack == below + [stack[n]] && stack[..n + 1] == stack;
      SettledBelow(stack);
      assert stack[n] in stack;
      AlongSettled(below, guarded);
      LevelPrefix(below, stack[n]);
    }
  }

  // ---------------------------------------------------------------- printing and reading back

  ghost predicate PlainNames(stack: seq<string>) {
    forall i :: 0 <= i < |stack| ==> stack[i] != "" && PlainText(stack[i])
  }

  /** Reading a printed stack gives its parts back, after an empty one if the path is absolute. */
  lemma {:induction false} SplitPrinted(slash: bool, stack: seq<string>)
    requires PlainNames(stack) && stack != []
    ensures AllParts(Printed(slash, stack)) == (if slash then [""] else []) + stack
    ensures '\0' !in Printed(slash, stack)
    ensures Absolute(Printed(slash, stack)) == slash
  {
    hide Split, Printed;
    var n := |stack| - 1;
    var below, name := stack[..n], stack[n];
    PrintedMore(slash, stack);
    assert "" + name == name;
    if n == 0 {
      assert stack == [name];
      var text := (if slash then "/" else "") + name;
      assert Printed(slash, stack) == text;
      SplitOne(slash, name);
      assert AllParts(text) == (if slash then [""] else []) + [name];
    } else {
      var text := Printed(slash, below);
      SplitPrinted(slash, below);
      PrintedMore(slash, below);
      SplitMore(text, name);
      var front := if slash then [""] else [];
      assert stack == below + [name];
      assert front + below + [name] == front + stack;
    }
  }

  lemma SplitMore(text: string, name: string)
    requires text != "" && '\0' !in text && PlainText(name)
    ensures AllParts(text + "/" + name) == AllParts(text) + [name]
    ensures '\0' !in text + "/" + name && Absolute(text + "/" + name) == Absolute(text)
  {
    hide Split;
    SplitSlash(text);
    SplitText(text + "/", name);
    assert "" + name == name;
    assert (text + "/" + name)[0] == text[0];
  }

  lemma PrintedMore(slash: bool, stack: seq<string>)
    requires stack != []
    ensures Printed(slash, stack) == if |stack| == 1 then (if slash then "/" else "") + stack[0] else Printed(slash, stack[..|stack| - 1]) + "/" + stack[|stack| - 1]
    ensures |Printed(slash, stack)| >= |stack[|stack| - 1]|
  {
    assert stack[..0] == [];
    assert "" + "/" + stack[0] == "/" + stack[0] && "" + "" + stack[0] == "" + stack[0];
  }

  lemma SplitOne(slash: bool, name: string)
    requires name != "" && PlainText(name)
    ensures var text := (if slash then "/" else "") + name;
            AllParts(text) == (if slash then [""] else []) + [name] && '\0' !in text && Absolute(text) == slash
  {
    hide Split;
    SplitShort();
    SplitText(if slash then "/" else "", name);
    assert "" + name == name && name[0] in name;
  }

  lemma SplitShort()
    ensures Split("") == Parts([], "") && Split("/") == Parts([""], "") && Split(".") == Parts([], ".")
  {
    SplitSlash("");
    SplitText("", ".");
    assert "" + "/" == "/" && "" + "." == ".";
  }

  lemma AlongAfterEmpty(stack: seq<string>, guarded: bool)
    ensures Along([""] + stack, guarded) == Along(stack, guarded)
    decreases |stack|
  {
    if stack == [] {
      assert ([""] + stack)[..0] == [];
    } else {
      assert ([""] + stack)[..|stack|] == [""] + stack[..|stack| - 1];
      AlongAfterEmpty(stack[..|stack| - 1], guarded);
    }
  }

  lemma {:induction false} StackIsPlain(parts: seq<string>, guarded: bool)
    requires forall p :: p in parts ==> PlainText(p)
    ensures PlainNames(Along(parts, guarded).stack)
  {
    if parts != [] {
      var before, part := parts[..|parts| - 1], parts[|parts| - 1];
      assert part in parts;
      assert forall p :: p in before ==> p in parts;
      StackIsPlain(before, guarded);
    }
  }

  lemma PathIsPlain(path: string, guarded: bool)
    ensures PlainNames(Along(AllParts(CString(path)), guarded).stack)
  {
    CStringIs(path);
    PartsArePlain(CString(path));
    StackIsPlain(AllParts(CString(path)), guarded);
  }

  // ---------------------------------------------------------------- what a path means

  /** Where a path leads, lexically: up so many times, then down these names. */
  datatype Meaning = Meaning(ups: nat, names: seq<string>)

  function MeaningOf(parts: seq<string>): Meaning {
    if parts == [] then Meaning(0, [])
    else Go(MeaningOf(parts[..|parts| - 1]), parts[|parts| - 1])
  }

  function Go(m: Meaning, part: string): Meaning {
    if part == "" || part == "." then m
    else if part == ".." then if m.names == [] then Meaning(m.ups + 1, []) else Meaning(m.ups, m.names[..|m.names| - 1])
    else Meaning(m.ups, m.names + [part])
  }

  lemma {:induction false} MeaningKept(parts: seq<string>, guarded: bool)
    requires !Along(parts, guarded).failed
    ensures MeaningOf(Along(parts, guarded).stack) == MeaningOf(parts)
  {
    if parts != [] {
      var before, part := parts[..|parts| - 1], parts[|parts| - 1];
      var w := Along(before, guarded);
      MeaningKept(before, guarded);
      if part == ".." && w.level >= 1 {
        TopIsName(before, guarded);
        AlongIs(before, guarded);
        var n := |w.stack| - 1;
        assert MeaningOf(w.stack) == Go(MeaningOf(w.stack[..n]), w.stack[n]);
        assert w.stack[n] != "" && w.stack[n] != ".";
      } else if part != "" && part != "." {
        assert (w.stack + [part])[..|w.stack|] == w.stack;
      }
    }
  }

  lemma {:induction false} MeaningAfterEmpty(stack: seq<string>)
    ensures MeaningOf([""] + stack) == MeaningOf(stack)
    decreases |stack|
  {
    if stack == [] {
      assert ([""] + stack)[..0] == [];
    } else {
      assert ([""] + stack)[..|stack|] == [""] + stack[..|stack| - 1];
      MeaningAfterEmpty(stack[..|stack| - 1]);
    }
  }

  /** What the printed stack reads as. */
  lemma ReadBack(slash: bool, stack: seq<string>)
    requires PlainNames(stack)
    ensures var r := PrintedOrRoot(slash, stack);
            && CString(r) == r && Absolute(r) == slash
            && MeaningOf(AllParts(r)) == MeaningOf(stack)
            && forall guarded :: Along(AllParts(r), guarded) == Along(stack, guarded)
  {
    var r := PrintedOrRoot(slash, stack);
    if stack != [] {
      SplitPrinted(slash, stack);
      if slash {
        MeaningAfterEmpty(stack);
      } else {
        assert [] + stack == stack;
      }
      forall guarded ensures Along(AllParts(r), guarded) == Along(stack, guarded) {
        AlongAfterEmpty(stack, guarded);
      }
    } else {
      RootParts(slash);
    }
    CStringNoNul(r);
  }

  lemma RootParts(slash: bool)
    ensures var r := if slash then "/" else "."; var parts := AllParts(r);
            parts == (if slash then ["", ""] else ["."]) && MeaningOf(parts) == MeaningOf([])
            && forall guarded :: Along(parts, guarded) == Along([], guarded)
  {
    hide Split;
    SplitShort();
    TrivialParts("");
    TrivialParts(".");
  }

  lemma TrivialParts(part: string)
    requires part == "" || part == "."
    ensures MeaningOf([part]) == MeaningOf([]) && MeaningOf(["", ""]) == MeaningOf([])
    ensures forall guarded :: Along([part], guarded) == Along([], guarded) && Along(["", ""], guarded) == Along([], guarded)
  {
    assert [part][..0] == [] && ["", ""][..1] == [""] && [""][..0] == [];
    assert MeaningOf([""]) == MeaningOf([]);
    forall guarded ensures Along([part], guarded) == Along([], guarded) && Along(["", ""], guarded) == Along([], guarded) {
      assert Along([""], guarded) == Along([], guarded);
    }
  }

  // ---------------------------------------------------------------- the results

  /** A path is refused exactly when it is relative, protected, and at some point above its start. */
  lemma RefusedWhen(path: string, protect: bool)
    ensures var s := CString(path);
            Canonical(path, protect) == None <==> protect && !Absolute(s) && exists k :: AboveAt(AllParts(s), k)
  {
    AlongFailsWhen(AllParts(CString(path)), protect && !Absolute(CString(path)));
  }

  /** A canonical path leads where the original does, and what protection lets through never goes up. */
  lemma SameMeaning(path: string, protect: bool)
    requires Canonical(path, protect).Some?
    ensures var s, r := CString(path), Canonical(path, protect).value;
            && Absolute(r) == Absolute(s) && MeaningOf(AllParts(r)) == MeaningOf(AllParts(s))
            && (protect && !Absolute(s) ==> ".." !in AllParts(r))
  {
    var s := CString(path);
    var guarded := protect && !Absolute(s);
    var stack := Along(AllParts(s), guarded).stack;
    PathIsPlain(path, guarded);
    ReadBack(Absolute(s), stack);
    MeaningKept(AllParts(s), guarded);
    AlongIs(AllParts(s), guarded);
    if guarded {
      if stack != [] {
        SplitPrinted(Absolute(s), stack);
      } else {
        RootParts(Absolute(s));
      }
    }
  }

  /** A canonical path is its own canonical path, "../a/.." included. */
  lemma Idempotent(path: string, protect: bool)
    requires Canonical(path, protect).Some?
    ensures Canonical(Canonical(path, protect).value, protect) == Canonical(path, protect)
  {
    var s := CString(path);
    var guarded := protect && !Absolute(s);
    var stack := Along(AllParts(s), guarded).stack;
    PathIsPlain(path, guarded);
    ReadBack(Absolute(s), stack);
    AlongIs(AllParts(s), guarded);
    AlongSettled(stack, guarded);
  }

  // ---------------------------------------------------------------- when equal meanings print equally

  /** The parts of a meaning as it is: `ShortestPath` shows that no path says it in fewer characters. */
  function UpsThen(m: Meaning): seq<string> {
    seq(m.ups, _ => "..") + m.names
  }

  /** A ".." stands after a name. */
  ghost predicate Crooked(stack: seq<string>) {
    exists i, j :: NameThenUp(stack, i, j)
  }

  predicate NameThenUp(stack: seq<string>, i: int, j: int) {
    0 <= i < j < |stack| && stack[i] != ".." && stack[j] == ".."
  }

  /** Part k is a ".." at or above the start, though a name precedes it: it cannot take the name back. */
  ghost predicate StuckAt(parts: seq<string>, k: int) {
    0 <= k < |parts| && parts[k] == ".." && Level(parts[..k]) <= 0 && MeaningOf(parts[..k]).names != []
  }

  ghost predicate Stuck(parts: seq<string>) {
    exists k :: StuckAt(parts, k)
  }

  predicate ProperName(part: string) {
    part != "" && part != "." && part != ".."
  }

  lemma {:induction false} NamesAreNames(parts: seq<string>)
    ensures forall n :: n in MeaningOf(parts).names ==> ProperName(n)
  {
    if parts != [] {
      var m, part := MeaningOf(parts[..|parts| - 1]), parts[|parts| - 1];
      NamesAreNames(parts[..|parts| - 1]);
      forall n | n in MeaningOf(parts).names ensures ProperName(n) {
        assert n in m.names || n == part;
      }
    }
  }

  lemma CrookedPush(stack: seq<string>, part: string)
    ensures Crooked(stack + [part]) <==> Crooked(stack) || (part == ".." && exists n :: n in stack && n != "..")
  {
    var stack' := stack + [part];
    if i, j :| NameThenUp(stack, i, j) {
      assert NameThenUp(stack', i, j);
    }
    if i, j :| NameThenUp(stack', i, j) {
      assert stack[i] in stack && (j < |stack| ==> NameThenUp(stack, i, j));
    }
    if n :| part == ".." && n in stack && n != ".." {
      var i :| 0 <= i < |stack| && stack[i] == n;
      assert NameThenUp(stack', i, |stack|);
    }
  }

  lemma UpsThenSteps(m: Meaning, name: string)
    ensures UpsThen(Meaning(m.ups, m.names + [name])) == UpsThen(m) + [name]
    ensures m.names == [] ==> UpsThen(Meaning(m.ups + 1, [])) == UpsThen(m) + [".."]
  {
  }

  /** A stack is what it means as it is, or crooked. */
  lemma {:induction false} StraightIs(stack: seq<string>)
    requires forall i :: 0 <= i < |stack| ==> stack[i] != "" && stack[i] != "."
    ensures Crooked(stack) <==> stack != UpsThen(MeaningOf(stack))
  {
    hide Crooked, UpsThen;
    if stack == [] {
      NothingCrooked();
    } else {
      var below, part := stack[..|stack| - 1], stack[|stack| - 1];
      var m := MeaningOf(below);
      assert stack == below + [part];
      StraightIs(below);
      CrookedPush(below, part);
      UpsThenSteps(m, part);
      NamesAreNames(below);
      if Crooked(below) {
        CrookedNever(stack, MeaningOf(stack));
      } else {
        NameIn(below, m);
        if part == ".." && m.names != [] {
          CrookedNever(stack, MeaningOf(stack));
        }
      }
    }
  }

  lemma NothingCrooked()
    ensures !Crooked([]) && UpsThen(MeaningOf([])) == [] && MeaningOf([]) == Meaning(0, [])
  {
  }

  lemma NameIn(stack: seq<string>, m: Meaning)
    requires stack == UpsThen(m) && forall n :: n in m.names ==> n != ".."
    ensures (exists n :: n in stack && n != "..") <==> m.names != []
  {
    if m.names != [] {
      assert m.names[0] in m.names && stack[m.ups] == m.names[0];
      assert stack[m.ups] in stack;
    }
  }

  lemma CrookedNever(stack: seq<string>, m: Meaning)
    requires Crooked(stack) && m == MeaningOf(stack)
    ensures stack != UpsThen(m)
  {
    NamesAreNames(stack);
    var i, j :| NameThenUp(stack, i, j);
    var shortest := UpsThen(m);
    assert i < m.ups ==> shortest[i] == "..";
    assert m.ups <= j < |shortest| ==> shortest[j] == m.names[j - m.ups] && shortest[j] in m.names;
  }

  /** A walk ends crooked exactly when it got stuck. */
  lemma {:induction false} StuckIs(parts: seq<string>, guarded: bool)
    requires !Along(parts, guarded).failed
    ensures Crooked(Along(parts, guarded).stack) <==> Stuck(parts)
  {
    hide Crooked, Stuck, MeaningOf, UpsThen, Level;
    if parts == [] {
      NothingCrooked();
      NothingStuck();
    } else {
      var before, part := parts[..|parts| - 1], parts[|parts| - 1];
      var w := Along(before, guarded);
      StuckIs(before, guarded);
      StuckLast(parts, before, part);
      AlongIs(before, guarded);
      CrookedPush(w.stack, part);
      if part == ".." && w.level >= 1 {
        SettledPop(w.stack);
        CrookedPush(Pop(w.stack), w.stack[|w.stack| - 1]);
        assert Pop(w.stack) + [w.stack[|w.stack| - 1]] == w.stack;
      } else if part == ".." && !Crooked(w.stack) {
        StraightIs(w.stack);
        MeaningKept(before, guarded);
        NamesAreNames(before);
        NameIn(w.stack, MeaningOf(before));
      }
    }
  }

  lemma NothingStuck()
    ensures !Stuck([])
  {
  }

  lemma StuckLast(parts: seq<string>, before: seq<string>, part: string)
    requires parts != [] && before == parts[..|parts| - 1] && part == parts[|parts| - 1]
    ensures Stuck(parts) <==> Stuck(before) || (part == ".." && Level(before) <= 0 && MeaningOf(before).names != [])
  {
    hide Level, MeaningOf;
    assert forall k :: 0 <= k < |before| ==> before[..k] == parts[..k];
    if k :| StuckAt(before, k) {
      assert StuckAt(parts, k);
    }
    if k :| StuckAt(parts, k) {
      assert k < |before| ==> StuckAt(before, k);
    }
    if part == ".." && Level(before) <= 0 && MeaningOf(before).names != [] {
      assert StuckAt(parts, |before|);
    }
  }

  /** Different stacks print differently. */
  lemma PrintsApart(slash: bool, a: seq<string>, b: seq<string>)
    requires PlainNames(a) && PlainNames(b) && "." !in a && "." !in b
    ensures PrintedOrRoot(slash, a) == PrintedOrRoot(slash, b) <==> a == b
  {
    hide Split, Printed, PlainText;
    forall x | x == a || x == b
      ensures AllParts(PrintedOrRoot(slash, x)) == if x == [] then (if slash then ["", ""] else ["."]) else (if slash then [""] else []) + x
    {
      if x != [] {
        SplitPrinted(slash, x);
      } else {
        RootParts(slash);
      }
    }
    var front := if slash then [""] else [];
    assert (front + a)[|front|..] == a && (front + b)[|front|..] == b;
    assert a != [] ==> (front + a)[|front|] == a[0] && a[0] in a;
    assert b != [] ==> (front + b)[|front|] == b[0] && b[0] in b;
  }

  /** The length of parts with a slash after each. */
  function Length(parts: seq<string>): nat {
    if parts == [] then 0 else Length(parts[..|parts| - 1]) + |parts[|parts| - 1]| + 1
  }

  lemma LengthMore(parts: seq<string>, part: string)
    ensures Length(parts + [part]) == Length(parts) + |part| + 1
  {
    assert (parts + [part])[..|parts|] == parts;
  }

  /** A path is as long as its parts and the slashes between them. */
  lemma {:induction false} LengthOfParts(s: string)
    ensures |s| + 1 == Length(AllParts(s))
  {
    if s == "" {
      assert AllParts(s) == [] + [""];
      LengthMore([], "");
    } else {
      var t := s[..|s| - 1];
      LengthOfParts(t);
      LengthMore(Split(t).done, Split(t).last);
      LengthMore(Split(s).done, Split(s).last);
    }
  }

  /** Saying what parts mean takes no more characters than the parts, and none for empty ones. */
  lemma {:induction false} MeaningIsShort(parts: seq<string>)
    ensures Length(UpsThen(MeaningOf(parts))) <= Length(parts)
    ensures parts != [] && parts[0] == "" ==> Length(UpsThen(MeaningOf(parts))) < Length(parts)
  {
    hide Length, UpsThen;
    if parts == [] {
      NothingCrooked();
    } else {
      var before, part := parts[..|parts| - 1], parts[|parts| - 1];
      var m := MeaningOf(before);
      MeaningIsShort(before);
      assert parts == before + [part];
      LengthMore(before, part);
      UpsThenSteps(m, part);
      LengthMore(UpsThen(m), part);
      if part == ".." && m.names != [] {
        var n := |m.names| - 1;
        assert m == Meaning(m.ups, m.names[..n] + [m.names[n]]);
        UpsThenSteps(Meaning(m.ups, m.names[..n]), m.names[n]);
        LengthMore(UpsThen(Meaning(m.ups, m.names[..n])), m.names[n]);
      }
    }
  }

  lemma {:induction false} LengthPrinted(slash: bool, stack: seq<string>)
    requires stack != []
    ensures |Printed(slash, stack)| + 1 == Length(stack) + if slash then 1 else 0
  {
    hide Length, Printed;
    var n := |stack| - 1;
    assert stack == stack[..n] + [stack[n]];
    LengthMore(stack[..n], stack[n]);
    PrintedMore(slash, stack);
    if n > 0 {
      LengthPrinted(slash, stack[..n]);
    } else {
      NoLength();
    }
  }

  lemma NoLength()
    ensures Length([]) == 0
  {
  }

  /** No path but the empty one says what s says, from the same start, in fewer characters than the print of
      its meaning. */
  lemma ShortestPath(s: string, t: string)
    requires t != "" && Absolute(t) == Absolute(s) && MeaningOf(AllParts(t)) == MeaningOf(AllParts(s))
    ensures |PrintedOrRoot(Absolute(s), UpsThen(MeaningOf(AllParts(s))))| <= |t|
  {
    hide MeaningOf, UpsThen, Printed, Length, Split;
    var stack := UpsThen(MeaningOf(AllParts(t)));
    MeaningIsShort(AllParts(t));
    LengthOfParts(t);
    if stack != [] {
      LengthPrinted(Absolute(s), stack);
      if Absolute(t) {
        FirstPartEmpty(t);
      }
    }
  }

  lemma {:induction false} FirstPartEmpty(s: string)
    requires Absolute(s)
    ensures AllParts(s)[0] == ""
  {
    if |s| == 1 {
      assert s[..0] == "";
    } else {
      FirstPartEmpty(s[..|s| - 1]);
    }
  }

  /** Reading what a meaning says gives it back. */
  lemma {:induction false} MeaningBack(m: Meaning)
    requires forall n :: n in m.names ==> ProperName(n)
    ensures MeaningOf(UpsThen(m)) == m
    decreases m.ups + |m.names|
  {
    hide UpsThen, MeaningOf;
    if m.names != [] {
      var n := |m.names| - 1;
      var less := Meaning(m.ups, m.names[..n]);
      assert m.names[n] in m.names && forall x :: x in less.names ==> x in m.names;
      MeaningBack(less);
      UpsThenSteps(less, m.names[n]);
      assert m.names == m.names[..n] + [m.names[n]];
      MeaningNext(UpsThen(less), m.names[n]);
    } else if m.ups > 0 {
      var less := Meaning(m.ups - 1, []);
      MeaningBack(less);
      UpsThenSteps(less, "");
      MeaningNext(UpsThen(less), "..");
    } else {
      NothingCrooked();
    }
  }

  lemma MeaningNext(parts: seq<string>, part: string)
    ensures MeaningOf(parts + [part]) == Go(MeaningOf(parts), part)
  {
    assert (parts + [part])[..|parts|] == parts;
  }

  /** A crooked stack is longer than what it means. */
  lemma {:induction false} CrookedIsLonger(stack: seq<string>)
    requires Crooked(stack) && forall i :: 0 <= i < |stack| ==> stack[i] != "" && stack[i] != "."
    ensures Length(UpsThen(MeaningOf(stack))) < Length(stack)
  {
    hide Length, UpsThen, Crooked;
    if stack == [] {
      NothingCrooked();
    } else {
      var below, part := stack[..|stack| - 1], stack[|stack| - 1];
      var m := MeaningOf(below);
      assert stack == below + [part];
      LengthMore(below, part);
      UpsThenSteps(m, part);
      LengthMore(UpsThen(m), part);
      MeaningIsShort(below);
      NamesAreNames(below);
      CrookedPush(below, part);
      if Crooked(below) {
        CrookedIsLonger(below);
      } else {
        StraightIs(below);
        NameIn(below, m);
      }
      if part == ".." && m.names != [] {
        var n := |m.names| - 1;
        assert m == Meaning(m.ups, m.names[..n] + [m.names[n]]);
        UpsThenSteps(Meaning(m.ups, m.names[..n]), m.names[n]);
        LengthMore(UpsThen(Meaning(m.ups, m.names[..n])), m.names[n]);
      }
    }
  }

  /** t is a path, not empty, from the same start as s to the same place. */
  predicate SaysSame(t: string, s: string) {
    t != "" && '\0' !in t && Absolute(t) == Absolute(s) && MeaningOf(AllParts(t)) == MeaningOf(AllParts(s))
  }

  /** The canonical form is what the path means as it is exactly when no ".." gets stuck. */
  lemma StraightWhen(path: string, protect: bool)
    requires Canonical(path, protect).Some?
    ensures var s := CString(path);
            Canonical(path, protect).value == PrintedOrRoot(Absolute(s), UpsThen(MeaningOf(AllParts(s)))) <==> !Stuck(AllParts(s))
    ensures var s := CString(path);
            Stuck(AllParts(s)) ==> |Canonical(path, protect).value| > |PrintedOrRoot(Absolute(s), UpsThen(MeaningOf(AllParts(s))))|
    ensures var s := CString(path); SaysSame(PrintedOrRoot(Absolute(s), UpsThen(MeaningOf(AllParts(s)))), s)
  {
    hide CString, Split, MeaningOf, UpsThen, Crooked, Stuck, Along, Settled, Printed, Length;
    var s := CString(path);
    var guarded := protect && !Absolute(s);
    var stack := Along(AllParts(s), guarded).stack;
    var m := MeaningOf(AllParts(s));
    StuckIs(AllParts(s), guarded);
    AlongIs(AllParts(s), guarded);
    MeaningKept(AllParts(s), guarded);
    PathIsPlain(path, guarded);
    SettledNames(stack);
    StraightIs(stack);
    MeaningIsPlain(stack);
    PrintsApart(Absolute(s), stack, UpsThen(m));
    NamesAreNames(AllParts(s));
    MeaningBack(m);
    ReadBack(Absolute(s), UpsThen(m));
    PrintIsPath(Absolute(s), UpsThen(m));
    if Crooked(stack) {
      CrookedIsLonger(stack);
      PrintsLonger(Absolute(s), stack, UpsThen(m));
    }
  }

  lemma PrintIsPath(slash: bool, stack: seq<string>)
    requires PlainNames(stack)
    ensures PrintedOrRoot(slash, stack) != "" && '\0' !in PrintedOrRoot(slash, stack)
  {
    if stack != [] {
      SplitPrinted(slash, stack);
      PrintedMore(slash, stack);
    }
  }

  lemma PrintsLonger(slash: bool, a: seq<string>, b: seq<string>)
    requires Crooked(a) && PlainNames(a) && Length(b) < Length(a)
    ensures |PrintedOrRoot(slash, b)| < |PrintedOrRoot(slash, a)|
  {
    hide Length, Printed;
    var i, j :| NameThenUp(a, i, j);
    LengthPrinted(slash, a);
    if b != [] {
      LengthPrinted(slash, b);
    } else {
      assert a == a[..|a| - 1] + [a[|a| - 1]];
      LengthMore(a[..|a| - 1], a[|a| - 1]);
      assert a[..|a| - 1] == a[..|a| - 2] + [a[|a| - 2]];
      LengthMore(a[..|a| - 2], a[|a| - 2]);
    }
  }

  /** No other path says the same in fewer characters exactly when no ".." gets stuck. */
  lemma ShortestWhen(path: string, protect: bool)
    requires Canonical(path, protect).Some?
    ensures var s := CString(path);
            (forall t :: SaysSame(t, s) ==> |Canonical(path, protect).value| <= |t|) <==> !Stuck(AllParts(s))
  {
    hide CString, Split, MeaningOf, UpsThen, Stuck, Canonical, Printed;
    var s := CString(path);
    StraightWhen(path, protect);
    forall t | SaysSame(t, s) ensures |PrintedOrRoot(Absolute(s), UpsThen(MeaningOf(AllParts(s))))| <= |t| {
      ShortestPath(s, t);
    }
  }

  lemma SettledNames(stack: seq<string>)
    requires Settled(stack)
    ensures "." !in stack && forall i :: 0 <= i < |stack| ==> stack[i] != "" && stack[i] != "."
  {
  }

  lemma {:induction false} MeaningIsPlain(stack: seq<string>)
    requires PlainNames(stack) && "." !in stack
    ensures PlainNames(UpsThen(MeaningOf(stack))) && "." !in UpsThen(MeaningOf(stack))
  {
    hide PlainText;
    NamesFrom(stack);
    var m := MeaningOf(stack);
    assert PlainText("..") by {
      DotsArePlain();
    }
    forall i | 0 <= i < |UpsThen(m)| ensures UpsThen(m)[i] != "." && UpsThen(m)[i] != "" && PlainText(UpsThen(m)[i]) {
      if i >= m.ups {
        assert UpsThen(m)[i] == m.names[i - m.ups] && m.names[i - m.ups] in m.names;
      } else {
        assert UpsThen(m)[i] == "..";
      }
    }
  }

  lemma DotsArePlain()
    ensures PlainText("..") && ".." != "." && ".." != ""
  {
  }

  lemma {:induction false} NamesFrom(parts: seq<string>)
    ensures forall n :: n in MeaningOf(parts).names ==> n in parts
  {
    if parts != [] {
      NamesFrom(parts[..|parts| - 1]);
      assert forall n :: n in parts[..|parts| - 1] ==> n in parts;
      assert parts[|parts| - 1] in parts;
    }
  }

  /** Of paths in which no ".." gets stuck, the canonical form is a normal form: it is the same for two of
      them exactly when they start alike and lead to the same place. */
  lemma NormalForm(a: string, protectA: bool, b: string, protectB: bool)
    requires Canonical(a, protectA).Some? && Canonical(b, protectB).Some?
    requires !Stuck(AllParts(CString(a))) && !Stuck(AllParts(CString(b)))
    ensures Canonical(a, protectA) == Canonical(b, protectB)
       <==> Absolute(CString(a)) == Absolute(CString(b)) && MeaningOf(AllParts(CString(a))) == MeaningOf(AllParts(CString(b)))
  {
    hide CString, Split, MeaningOf, UpsThen, Stuck, Along, Canonical;
    StraightWhen(a, protectA);
    StraightWhen(b, protectB);
    SameMeaning(a, protectA);
    SameMeaning(b, protectB);
  }

  /** That includes every path that never leaves its start. */
  lemma BelowNotStuck(parts: seq<string>)
    requires forall k :: !AboveAt(parts, k)
    ensures !Stuck(parts) && MeaningOf(parts).ups == 0
  {
    hide Level, MeaningOf;
    if k :| StuckAt(parts, k) {
      LevelPrefix(parts[..k], "..");
      assert parts[..k] + [".."] == parts[..k + 1];
      assert AboveAt(parts, k + 1) <==> Level(parts[..k + 1]) < 0;
    }
    NeverUp(parts);
  }

  lemma {:induction false} NeverUp(parts: seq<string>)
    requires forall k :: !AboveAt(parts, k)
    ensures MeaningOf(parts).ups == 0 && |MeaningOf(parts).names| == Level(parts)
  {
    if parts != [] {
      var before := parts[..|parts| - 1];
      forall k ensures !AboveAt(before, k) {
        if 0 <= k <= |before| {
          assert before[..k] == parts[..k];
          assert !AboveAt(parts, k);
        }
      }
      NeverUp(before);
      assert parts[..|parts|] == parts;
      assert !AboveAt(parts, |parts|);
    }
  }

  /** The exception: two ways up one directory, with different canonical forms. */
  lemma TwoForms()
    ensures MeaningOf(["..", "a", ".."]) == MeaningOf([".."]) && StuckAt(["..", "a", ".."], 2)
    ensures Along(["..", "a", ".."], false).stack == ["..", "a", ".."] && Along([".."], false).stack == [".."]
  {
    assert ["..", "a", ".."][..2] == ["..", "a"] && ["..", "a"][..1] == [".."] && [".."][..0] == [];
    assert MeaningOf(["..", "a"]) == Meaning(1, ["a"]);
    assert Along(["..", "a"], false) == Walk(["..", "a"], 0, false);
  }
}
