/** The configuration key/value store of lidbg_fs_keyvalue.c, as text
    transformations: splitting lines, splitting "key=value", printing, reloading. */
module KeyValue {
  import opened Decimal
  import opened Overwrite

  datatype Option<T> = None | Some(value: T)

  /** struct string_dev.  `target` names the int that `int_value` points to, so
      two entries may share one; `callback` says whether there is a handler. */
  datatype Entry = Entry(key: string, value: Option<string>, target: Option<nat>, callback: bool)

  datatype Call = Call(key: string, value: string)

  /** The ints registered, and the callbacks fired so far. */
  datatype State = State(vars: map<nat, int>, calls: seq<Call>)

  // ---- text ----

  /** A C string ends at its first NUL. */
  function CStr(s: string): string {
    if s == "" || s[0] == '\0' then "" else [s[0]] + CStr(s[1..])
  }

  /** The tokens that strsep(&p, "\n") delivers. */
  function Lines(s: string): (r: seq<string>)
    ensures |r| >= 1
  {
    if s == "" then [""]
    else if s[0] == '\n' then [""] + Lines(s[1..])
    else
      var r := Lines(s[1..]);
      [[s[0]] + r[0]] + r[1..]
  }

  /** The split at the first '='. */
  function Cut(s: string): Option<(string, string)> {
    if s == "" then None
    else if s[0] == '=' then Some(("", s[1..]))
    else match Cut(s[1..])
      case None => None
      case Some((k, v)) => Some(([s[0]] + k, v))
  }

  lemma {:induction false} CStrWhole(s: string)
    requires '\0' !in s
    ensures CStr(s) == s
  {
    if s != "" { CStrWhole(s[1..]); }
  }

  lemma {:induction false} LinesCons(line: string, rest: string)
    requires '\n' !in line
    ensures Lines(line + "\n" + rest) == [line] + Lines(rest)
  {
    if line == "" {
      assert line + "\n" + rest == "\n" + rest;
      assert ("\n" + rest)[1..] == rest;
    } else {
      assert (line + "\n" + rest)[1..] == line[1..] + "\n" + rest && line[0] in line;
      assert [line[0]] + line[1..] == line;
      LinesCons(line[1..], rest);
    }
  }

  lemma {:induction false} LinesOne(line: string)
    requires '\n' !in line
    ensures Lines(line) == [line]
  {
    if line != "" {
      assert line[0] in line && [line[0]] + line[1..] == line;
      LinesOne(line[1..]);
    }
  }

  lemma {:induction false} CutAt(k: string, v: string)
    requires '=' !in k
    ensures Cut(k + "=" + v) == Some((k, v))
  {
    if k == "" {
      assert k + "=" + v == "=" + v;
      assert ("=" + v)[1..] == v;
    } else {
      assert (k + "=" + v)[1..] == k[1..] + "=" + v && k[0] in k;
      assert [k[0]] + k[1..] == k;
      CutAt(k[1..], v);
    }
  }

  // ---- filling ----

  predicate Dropped(c: char) { c in ['#', '\n', 18 as char, 13 as char, '\0'] }

  predicate Kept(token: string) { token != "" && !Dropped(token[0]) }

  /** list_add puts each kept token in front. */
  function Prepend(tokens: seq<string>, list: seq<Entry>): seq<Entry> {
    if tokens == [] then list
    else Prepend(tokens[1..], if Kept(tokens[0]) then [Entry(tokens[0], None, None, false)] + list else list)
  }

  function SplitEntry(e: Entry): Entry {
    match Cut(e.key)
    case None => e
    case Some((k, v)) => e.(key := k, value := Some(v))
  }

  function SplitAll(list: seq<Entry>): (r: seq<Entry>)
    ensures |r| == |list|
  {
    if list == [] then [] else [SplitEntry(list[0])] + SplitAll(list[1..])
  }

  /** bfs_fill_list in config mode; an empty file is a failed read. */
  function Fill(list: seq<Entry>, text: string): seq<Entry> {
    if text == "" then list else SplitAll(Prepend(Lines(CStr(text)), list))
  }

  // ---- saving ----

  predicate Saved(e: Entry) { e.target.Some? || e.value.Some? }

  predicate Registered(list: seq<Entry>, vars: map<nat, int>) {
    forall e | e in list && e.target.Some? :: e.target.value in vars && IsInt(vars[e.target.value])
  }

  /** The text of an entry's value: the registered int if there is one. */
  function Render(e: Entry, vars: map<nat, int>): string
    requires Saved(e) && (e.target.Some? ==> e.target.value in vars)
  {
    if e.target.Some? then Dec(vars[e.target.value]) else e.value.value
  }

  function Token(e: Entry, vars: map<nat, int>): string
    requires Saved(e) && (e.target.Some? ==> e.target.value in vars)
  {
    e.key + "=" + Render(e, vars)
  }

  function SaveLine(e: Entry, vars: map<nat, int>): string
    requires e.target.Some? ==> e.target.value in vars
  {
    if Saved(e) then Token(e, vars) + "\n" else ""
  }

  function Save(list: seq<Entry>, vars: map<nat, int>): string
    requires Registered(list, vars)
  {
    if list == [] then "" else SaveLine(list[0], vars) + Save(list[1..], vars)
  }

  // ---- reloading ----

  predicate Readable(token: string) { |token| > 2 && token[0] != '#' }

  function UpdateEntry(e: Entry, k: string, v: string, st: State): State {
    if e.key != k then st
    else if e.target.Some? then
      var n := ToInt(Strtoul(v));
      if e.target.value in st.vars && st.vars[e.target.value] == n then st
      else State(st.vars[e.target.value := n], if e.callback then st.calls + [Call(k, v)] else st.calls)
    else if e.value.Some? && e.value.value != v && e.callback then st.(calls := st.calls + [Call(k, v)])
    else st
  }

  function UpdateEntries(list: seq<Entry>, k: string, v: string, st: State): State {
    if list == [] then st else UpdateEntries(list[1..], k, v, UpdateEntry(list[0], k, v, st))
  }

  function UpdateLine(list: seq<Entry>, token: string, st: State): State {
    if !Readable(token) then st
    else match Cut(token)
      case None => st
      case Some((k, v)) => UpdateEntries(list, k, v, st)
  }

  function UpdateLines(list: seq<Entry>, tokens: seq<string>, st: State): State {
    if tokens == [] then st else UpdateLines(list, tokens[1..], UpdateLine(list, tokens[0], st))
  }

  /** update_list. */
  function Update(list: seq<Entry>, text: string, st: State): State {
    if text == "" then st else UpdateLines(list, Lines(CStr(text)), st)
  }

  // ---- saving, then reading the file back ----

  predicate Clean(s: string) { '\n' !in s && '\0' !in s }

  /** The strings a line of the file can carry unharmed. */
  predicate WellFormed(e: Entry) {
    Clean(e.key) && '=' !in e.key && (e.value.Some? ==> Clean(e.value.value))
  }

  /** The tokens of the saved file. */
  function Tokens(list: seq<Entry>, vars: map<nat, int>): seq<string>
    requires Registered(list, vars)
  {
    if list == [] then []
    else (if Saved(list[0]) then [Token(list[0], vars)] else []) + Tokens(list[1..], vars)
  }

  lemma TokenClean(e: Entry, vars: map<nat, int>)
    requires Saved(e) && WellFormed(e) && (e.target.Some? ==> e.target.value in vars)
    ensures Clean(Token(e, vars))
  {}

  lemma SaveCons(list: seq<Entry>, vars: map<nat, int>)
    requires list != [] && Registered(list, vars)
    ensures Registered(list[1..], vars) && list[0] in list
    ensures Saved(list[0]) ==>
              && Save(list, vars) == Token(list[0], vars) + "\n" + Save(list[1..], vars)
              && Tokens(list, vars) == [Token(list[0], vars)] + Tokens(list[1..], vars)
    ensures !Saved(list[0]) ==>
              Save(list, vars) == Save(list[1..], vars) && Tokens(list, vars) == Tokens(list[1..], vars)
  {
    hide Token, IsInt;
  }

  lemma {:induction false} SaveTokens(list: seq<Entry>, vars: map<nat, int>)
    requires Registered(list, vars) && forall e | e in list :: WellFormed(e)
    ensures '\0' !in Save(list, vars) && Lines(Save(list, vars)) == Tokens(list, vars) + [""]
    ensures Save(list, vars) == "" <==> Tokens(list, vars) == []
  {
    if list != [] {
      hide Token, WellFormed, Registered, Save, Tokens, Lines;
      SaveCons(list, vars);
      SaveTokens(list[1..], vars);
      var e := list[0];
      if Saved(e) {
        TokenClean(e, vars);
        LinesCons(Token(e, vars), Save(list[1..], vars));
        Assoc([Token(e, vars)], Tokens(list[1..], vars), [""]);
      }
    }
  }

  /** What a saved entry looks like when it is read back. */
  function Restored(list: seq<Entry>, vars: map<nat, int>): seq<Entry>
    requires Registered(list, vars)
  {
    if list == [] then []
    else
      var e := list[0];
      (if Saved(e) && Kept(Token(e, vars)) then [Entry(e.key, Some(Render(e, vars)), None, false)] else [])
      + Restored(list[1..], vars)
  }

  function Reverse<T>(s: seq<T>): (r: seq<T>)
    ensures |r| == |s|
  {
    if s == [] then [] else Reverse(s[1..]) + [s[0]]
  }

  lemma TokenSplit(e: Entry, vars: map<nat, int>)
    requires Saved(e) && WellFormed(e) && (e.target.Some? ==> e.target.value in vars)
    ensures SplitEntry(Entry(Token(e, vars), None, None, false)) == Entry(e.key, Some(Render(e, vars)), None, false)
  {
    CutAt(e.key, Render(e, vars));
  }

  lemma PrependCons(token: string, tokens: seq<string>, list: seq<Entry>)
    ensures Prepend([token] + tokens, list)
         == Prepend(tokens, if Kept(token) then [Entry(token, None, None, false)] + list else list)
  {
    assert ([token] + tokens)[1..] == tokens;
  }

  /** An empty line and one that begins with '#', carriage return or DC2 leave no
      entry; every other line leaves one, in front of the list. */
  lemma LineTaken(line: string, rest: string, list: seq<Entry>)
    requires '\n' !in line && '\0' !in line
    ensures var tokens := Lines(line + "\n" + rest);
            if line == "" || line[0] in ['#', 13 as char, 18 as char]
            then Prepend(tokens, list) == Prepend(Lines(rest), list)
            else Prepend(tokens, list) == Prepend(Lines(rest), [Entry(line, None, None, false)] + list)
  {
    LinesCons(line, rest);
    PrependCons(line, Lines(rest), list);
    assert line != "" ==> line[0] in line;
  }

  lemma SplitCons(e: Entry, list: seq<Entry>)
    ensures SplitAll([e] + list) == [SplitEntry(e)] + SplitAll(list)
  {
    assert ([e] + list)[1..] == list;
  }

  lemma ReverseCons<T>(x: T, s: seq<T>)
    ensures Reverse([x] + s) == Reverse(s) + [x]
  {
    assert ([x] + s)[1..] == s;
  }

  lemma {:induction false} PrependTokens(list: seq<Entry>, vars: map<nat, int>, done: seq<Entry>)
    requires Registered(list, vars) && forall e | e in list :: WellFormed(e)
    ensures SplitAll(Prepend(Tokens(list, vars) + [""], done)) == Reverse(Restored(list, vars)) + SplitAll(done)
  {
    if list == [] {
      assert Tokens(list, vars) + [""] == [""] + [];
      PrependCons("", [], done);
    } else {
      hide Token, Render, WellFormed, Kept, SplitEntry, Prepend, SplitAll, Reverse, Registered, Tokens, Save;
      SaveCons(list, vars);
      var e, rest := list[0], Tokens(list[1..], vars) + [""];
      if Saved(e) {
        var t := Token(e, vars);
        var raw, r := Entry(t, None, None, false), Entry(e.key, Some(Render(e, vars)), None, false);
        Assoc([t], Tokens(list[1..], vars), [""]);
        PrependCons(t, rest, done);
        if Kept(t) {
          PrependTokens(list[1..], vars, [raw] + done);
          SplitCons(raw, done);
          TokenSplit(e, vars);
          ReverseCons(r, Restored(list[1..], vars));
          Assoc(Reverse(Restored(list[1..], vars)), [r], SplitAll(done));
        } else {
          PrependTokens(list[1..], vars, done);
          assert Restored(list, vars) == Restored(list[1..], vars);
        }
      } else {
        PrependTokens(list[1..], vars, done);
        assert Restored(list, vars) == Restored(list[1..], vars);
      }
    }
  }

  /** Filling an empty list from a saved file gives back, in reverse, exactly the
      saved entries whose line is not dropped, with their values as text. */
  lemma FillOfSave(list: seq<Entry>, vars: map<nat, int>)
    requires Registered(list, vars) && forall e | e in list :: WellFormed(e)
    ensures Fill([], Save(list, vars)) == Reverse(Restored(list, vars))
  {
    SaveTokens(list, vars);
    CStrWhole(Save(list, vars));
    PrependTokens(list, vars, []);
    if Save(list, vars) == "" { NothingRestored(list, vars); }
  }

  lemma {:induction false} NothingRestored(list: seq<Entry>, vars: map<nat, int>)
    requires Registered(list, vars) && Tokens(list, vars) == []
    ensures Restored(list, vars) == []
  {
    if list != [] { NothingRestored(list[1..], vars); }
  }

  /** Entries read from a file: a text value, nothing registered. */
  predicate Plain(e: Entry) {
    WellFormed(e) && e.value.Some? && e.target.None? && !e.callback && Kept(Token(e, map[]))
  }

  lemma {:induction false} RestoredPlain(list: seq<Entry>, vars: map<nat, int>)
    requires Registered(list, vars) && forall e | e in list :: WellFormed(e)
    ensures forall e | e in Restored(list, vars) :: Plain(e)
  {
    if list != [] {
      var e := list[0];
      assert e in list;
      if Saved(e) {
        TokenClean(e, vars);
        assert Clean(Render(e, vars)) by {
          assert forall c | c in Render(e, vars) :: c in Token(e, vars);
        }
      }
      RestoredPlain(list[1..], vars);
    }
  }

  lemma {:induction false} PlainRestored(list: seq<Entry>)
    requires forall e | e in list :: Plain(e)
    ensures Registered(list, map[]) && Restored(list, map[]) == list
  {
    if list != [] {
      var e := list[0];
      assert e in list;
      PlainRestored(list[1..]);
      assert Entry(e.key, Some(Render(e, map[])), None, false) == e;
      assert [e] + list[1..] == list;
    }
  }

  lemma {:induction false} ReverseMembers<T>(s: seq<T>)
    ensures forall x :: x in Reverse(s) <==> x in s
  {
    if s != [] {
      ReverseMembers(s[1..]);
      assert forall x :: x in s <==> x == s[0] || x in s[1..];
    }
  }

  lemma {:induction false} ReverseSnoc<T>(s: seq<T>, x: T)
    ensures Reverse(s + [x]) == [x] + Reverse(s)
  {
    if s == [] {
      assert s + [x] == [x] + [];
      ReverseCons(x, []);
    } else {
      assert s + [x] == [s[0]] + (s[1..] + [x]);
      ReverseCons(s[0], s[1..] + [x]);
      ReverseSnoc(s[1..], x);
    }
  }

  lemma {:induction false} ReverseTwice<T>(s: seq<T>)
    ensures Reverse(Reverse(s)) == s
  {
    if s != [] {
      ReverseTwice(s[1..]);
      ReverseSnoc(Reverse(s[1..]), s[0]);
    }
  }

  /** A second save and fill puts the entries back in their first order. */
  lemma FillTwice(list: seq<Entry>, vars: map<nat, int>)
    requires Registered(list, vars) && forall e | e in list :: WellFormed(e)
    ensures var once := Fill([], Save(list, vars));
            Registered(once, map[]) && Fill([], Save(once, map[])) == Restored(list, vars)
  {
    hide Fill, Save, Restored, Registered, Plain, Reverse;
    var r := Restored(list, vars);
    FillOfSave(list, vars);
    RestoredPlain(list, vars);
    ReverseMembers(r);
    PlainRestored(Reverse(r));
    assert forall e | e in Reverse(r) :: WellFormed(e) by {
      forall e | e in Reverse(r) ensures WellFormed(e) { PlainWellFormed(e); }
    }
    FillOfSave(Reverse(r), map[]);
    ReverseTwice(r);
  }

  lemma PlainWellFormed(e: Entry)
    requires Plain(e)
    ensures WellFormed(e)
  {}

  // ---- saving, then reloading ----

  ghost predicate DistinctKeys(list: seq<Entry>) {
    forall i, j | 0 <= i < j < |list| :: list[i].key != list[j].key
  }

  lemma {:induction false} NoMatch(list: seq<Entry>, k: string, v: string, st: State)
    requires forall e | e in list :: e.key != k
    ensures UpdateEntries(list, k, v, st) == st
  {
    if list != [] {
      assert list[0] in list;
      NoMatch(list[1..], k, v, st);
    }
  }

  /** With distinct keys a line reaches one entry. */
  lemma {:induction false} OneMatch(list: seq<Entry>, j: nat, v: string, st: State)
    requires DistinctKeys(list) && j < |list|
    ensures UpdateEntries(list, list[j].key, v, st) == UpdateEntry(list[j], list[j].key, v, st)
  {
    if j == 0 {
      forall e | e in list[1..] ensures e.key != list[0].key {
        var i :| 0 <= i < |list[1..]| && list[1..][i] == e;
        assert list[i + 1] == e;
      }
      NoMatch(list[1..], list[0].key, v, UpdateEntry(list[0], list[0].key, v, st));
    } else {
      assert list[0].key != list[j].key;
      OneMatch(list[1..], j - 1, v, st);
    }
  }

  /** The line an entry was saved as comes back to that entry alone. */
  lemma LineBack(list: seq<Entry>, vars: map<nat, int>, j: nat, st: State)
    requires Registered(list, vars) && DistinctKeys(list) && j < |list|
    requires WellFormed(list[j]) && Saved(list[j])
    ensures list[j] in list
    ensures UpdateLine(list, Token(list[j], vars), st)
         == if Readable(Token(list[j], vars)) then UpdateEntry(list[j], list[j].key, Render(list[j], vars), st) else st
  {
    assert list[j] in list;
    CutAt(list[j].key, Render(list[j], vars));
    OneMatch(list, j, Render(list[j], vars), st);
  }

  predicate Hash(e: Entry) { e.key != "" && e.key[0] == '#' }

  /** An int that the reload would change: negative, on a line that is not a comment. */
  predicate Volatile(e: Entry, vars: map<nat, int>)
    requires e.target.Some? ==> e.target.value in vars
  {
    e.target.Some? && !Hash(e) && vars[e.target.value] < 0
  }

  lemma QuietLine(list: seq<Entry>, vars: map<nat, int>, j: nat, calls: seq<Call>)
    requires Registered(list, vars) && DistinctKeys(list) && j < |list| && WellFormed(list[j]) && Saved(list[j])
    requires list[j] in list && !Volatile(list[j], vars)
    ensures UpdateLine(list, Token(list[j], vars), State(vars, calls)) == State(vars, calls)
  {
    LineBack(list, vars, j, State(vars, calls));
    if list[j].target.Some? { DecRoundTrip(vars[list[j].target.value]); }
  }

  lemma {:induction false} QuietLines(list: seq<Entry>, vars: map<nat, int>, from: nat, calls: seq<Call>)
    requires Registered(list, vars) && DistinctKeys(list) && from <= |list| && Registered(list[from..], vars)
    requires forall e | e in list :: WellFormed(e) && !Volatile(e, vars)
    ensures UpdateLines(list, Tokens(list[from..], vars) + [""], State(vars, calls)) == State(vars, calls)
    decreases |list| - from
  {
    hide UpdateLine, Token, WellFormed, Volatile, IsInt;
    var st := State(vars, calls);
    if from == |list| {
      assert Tokens(list[from..], vars) + [""] == [""] + [];
      LinesStep(list, "", [], st);
      BlankLine(list, st);
    } else {
      assert list[from..][1..] == list[from + 1..] && list[from] in list;
      var rest := Tokens(list[from + 1..], vars) + [""];
      if Saved(list[from]) {
        var t := Token(list[from], vars);
        Assoc([t], Tokens(list[from + 1..], vars), [""]);
        LinesStep(list, t, rest, st);
        QuietLine(list, vars, from, calls);
      } else {
        assert Tokens(list[from..], vars) + [""] == rest;
      }
      QuietLines(list, vars, from + 1, calls);
    }
  }

  lemma LinesStep(list: seq<Entry>, token: string, tokens: seq<string>, st: State)
    ensures UpdateLines(list, [token] + tokens, st) == UpdateLines(list, tokens, UpdateLine(list, token, st))
  {
    assert ([token] + tokens)[1..] == tokens;
  }

  lemma BlankLine(list: seq<Entry>, st: State)
    ensures UpdateLine(list, "", st) == st && UpdateLines(list, [], st) == st
  {}

  predicate Lifted(st: State, t: nat) { t in st.vars && st.vars[t] >= 0 }

  /** No saved line brings a negative value, and the line of a negative int replaces it. */
  lemma LineLifts(list: seq<Entry>, vars: map<nat, int>, j: nat, st: State, t: nat)
    requires Registered(list, vars) && DistinctKeys(list) && j < |list| && WellFormed(list[j]) && Saved(list[j])
    requires list[j] in list
    requires Lifted(st, t) || (list[j].target == Some(t) && Volatile(list[j], vars))
    ensures Lifted(UpdateLine(list, Token(list[j], vars), st), t)
  {
    LineBack(list, vars, j, st);
    if list[j].target.Some? { DecRoundTrip(vars[list[j].target.value]); }
  }

  lemma {:induction false} LinesLift(list: seq<Entry>, vars: map<nat, int>, from: nat, j: nat, st: State, t: nat)
    requires Registered(list, vars) && DistinctKeys(list) && from <= |list| && Registered(list[from..], vars)
    requires forall e | e in list :: WellFormed(e)
    requires j < |list| && list[j] in list && list[j].target == Some(t) && Volatile(list[j], vars)
    requires j < from ==> Lifted(st, t)
    ensures Lifted(UpdateLines(list, Tokens(list[from..], vars) + [""], st), t)
    decreases |list| - from
  {
    hide UpdateLine, Token, WellFormed, Volatile, IsInt;
    if from == |list| {
      assert Tokens(list[from..], vars) + [""] == [""] + [];
      LinesStep(list, "", [], st);
      BlankLine(list, st);
    } else {
      assert list[from..][1..] == list[from + 1..] && list[from] in list;
      var rest := Tokens(list[from + 1..], vars) + [""];
      var next := st;
      if Saved(list[from]) {
        var line := Token(list[from], vars);
        Assoc([line], Tokens(list[from + 1..], vars), [""]);
        LinesStep(list, line, rest, st);
        if Lifted(st, t) || from == j { LineLifts(list, vars, from, st, t); }
        next := UpdateLine(list, line, st);
      } else {
        assert Tokens(list[from..], vars) + [""] == rest;
      }
      LinesLift(list, vars, from + 1, j, next, t);
    }
  }

  /** Reloading the file just saved changes no variable and fires no callback
      exactly when no registered int is negative on a line that is not a comment. */
  lemma ReloadSilent(list: seq<Entry>, vars: map<nat, int>, calls: seq<Call>)
    requires Registered(list, vars) && DistinctKeys(list) && forall e | e in list :: WellFormed(e)
    ensures Update(list, Save(list, vars), State(vars, calls)) == State(vars, calls)
       <==> forall e | e in list :: !Volatile(e, vars)
  {
    hide WellFormed, IsInt, UpdateLines, Lines;
    SaveTokens(list, vars);
    CStrWhole(Save(list, vars));
    assert list[0..] == list;
    if forall e | e in list :: !Volatile(e, vars) {
      QuietLines(list, vars, 0, calls);
    } else {
      var e :| e in list && Volatile(e, vars);
      var j :| 0 <= j < |list| && list[j] == e;
      HasToken(list, vars, j);
      LinesLift(list, vars, 0, j, State(vars, calls), e.target.value);
    }
  }

  lemma {:induction false} HasToken(list: seq<Entry>, vars: map<nat, int>, j: nat)
    requires Registered(list, vars) && j < |list| && Saved(list[j])
    ensures Tokens(list, vars) != []
  {
    if j > 0 { HasToken(list[1..], vars, j - 1); }
  }

  // ---- reloading a file saved at another time ----

  /** What a saved int reads back as. */
  function Clamp(v: int): int { if v < 0 then 0 else v }

  /** The line of a saved entry is looked at: no comment, and more than two characters long. */
  predicate Heard(e: Entry, vars: map<nat, int>)
    requires e.target.Some? ==> e.target.value in vars
  {
    Saved(e) && !Hash(e) && |e.key| + |Render(e, vars)| >= 2
  }

  /** The same keys and registrations; texts may differ. */
  predicate Twins(was: seq<Entry>, list: seq<Entry>) {
    |was| == |list| &&
    forall j | 0 <= j < |list| :: was[j].key == list[j].key && was[j].target == list[j].target
  }

  ghost predicate DistinctTargets(list: seq<Entry>) {
    forall i, j | 0 <= i < j < |list| && list[i].target.Some? :: list[i].target != list[j].target
  }

  /** The callback that the line of `o` fires at the entry `e`: the value differs, and there is a handler. */
  function FiredBy(o: Entry, e: Entry, saved: map<nat, int>, now: map<nat, int>): seq<Call>
    requires o.target == e.target && (e.target.Some? ==> e.target.value in saved && e.target.value in now)
  {
    if !Heard(o, saved) || !e.callback then []
    else if e.target.Some? then
      if Clamp(saved[e.target.value]) != now[e.target.value] then [Call(e.key, Dec(saved[e.target.value]))] else []
    else if e.value.Some? && e.value != o.value then [Call(e.key, o.value.value)]
    else []
  }

  /** The callbacks of the lines from `from` on, in list order. */
  function Fired(was: seq<Entry>, list: seq<Entry>, saved: map<nat, int>, now: map<nat, int>, from: nat): seq<Call>
    requires Twins(was, list) && Registered(was, saved) && Registered(list, now) && from <= |list|
    decreases |list| - from
  {
    if from == |list| then []
    else
      assert list[from] in list && was[from] in was;
      FiredBy(was[from], list[from], saved, now) + Fired(was, list, saved, now, from + 1)
  }

  lemma FiredBySame(o: Entry, e: Entry, saved: map<nat, int>, now: map<nat, int>, now': map<nat, int>)
    requires o.target == e.target && (e.target.Some? ==> e.target.value in saved && e.target.value in now)
    requires e.target.Some? ==> e.target.value in now' && now'[e.target.value] == now[e.target.value]
    ensures FiredBy(o, e, saved, now') == FiredBy(o, e, saved, now)
  {
    hide Heard, Clamp, Dec;
  }

  lemma {:induction false} FiredSame(
    was: seq<Entry>, list: seq<Entry>, saved: map<nat, int>, now: map<nat, int>, now': map<nat, int>, from: nat)
    requires Twins(was, list) && Registered(was, saved) && Registered(list, now) && Registered(list, now')
    requires from <= |list|
    requires forall j | from <= j < |list| && list[j].target.Some? ::
               list[j] in list && now'[list[j].target.value] == now[list[j].target.value]
    ensures Fired(was, list, saved, now', from) == Fired(was, list, saved, now, from)
    decreases |list| - from
  {
    hide FiredBy, IsInt;
    if from < |list| {
      assert list[from] in list && was[from] in was;
      FiredBySame(was[from], list[from], saved, now, now');
      FiredSame(was, list, saved, now, now', from + 1);
    }
  }

  /** A line as it was saved then, read now: the int of its entry takes the value
      that was saved, whatever it is now, and the handler hears of a difference. */
  lemma LineRestores(was: seq<Entry>, list: seq<Entry>, saved: map<nat, int>, j: nat, st: State)
    requires Twins(was, list) && Registered(was, saved) && Registered(list, st.vars) && DistinctKeys(list)
    requires j < |list| && WellFormed(was[j]) && Saved(was[j])
    ensures list[j] in list && was[j] in was
    ensures UpdateLine(list, Token(was[j], saved), st) ==
            State(if list[j].target.Some? && Heard(was[j], saved)
                  then st.vars[list[j].target.value := Clamp(saved[list[j].target.value])] else st.vars,
                  st.calls + FiredBy(was[j], list[j], saved, st.vars))
  {
    hide Strtoul, ToInt;
    assert list[j] in list && was[j] in was;
    var o, e, v := was[j], list[j], Render(was[j], saved);
    assert |Token(o, saved)| == |o.key| + 1 + |v|;
    CutAt(o.key, v);
    OneMatch(list, j, v, st);
    assert st.calls + [] == st.calls;
    if e.target.Some? {
      DecRoundTrip(saved[e.target.value]);
      assert st.vars[e.target.value] == Clamp(saved[e.target.value]) ==>
               st.vars[e.target.value := Clamp(saved[e.target.value])] == st.vars;
    }
  }

  /** The lines from `from` on bring a value for the int `t`. */
  predicate Brings(list: seq<Entry>, saved: map<nat, int>, from: nat, t: nat)
    requires Registered(list, saved)
  {
    exists j :: from <= j < |list| && list[j] in list && list[j].target == Some(t) && Heard(list[j], saved)
  }

  /** Every int is what the lines from `from` on make of it. */
  ghost predicate Settled(
    was: seq<Entry>, saved: map<nat, int>, from: nat, before: map<nat, int>, after: map<nat, int>)
    requires Registered(was, saved)
  {
    && after.Keys == before.Keys
    && forall t | t in before ::
         after[t] == if Brings(was, saved, from, t) && t in saved then Clamp(saved[t]) else before[t]
  }

  lemma {:induction false} LinesRestore(
    was: seq<Entry>, list: seq<Entry>, saved: map<nat, int>, from: nat, st: State)
    requires Twins(was, list) && Registered(was, saved) && Registered(list, st.vars) && DistinctKeys(list)
    requires from <= |list| && Registered(was[from..], saved) && forall e | e in was :: WellFormed(e)
    ensures var r := UpdateLines(list, Tokens(was[from..], saved) + [""], st);
            && Settled(was, saved, from, st.vars, r.vars)
            && (DistinctTargets(list) ==> r.calls == st.calls + Fired(was, list, saved, st.vars, from))
    decreases |list| - from
  {
    hide UpdateLine, Token, WellFormed, Heard, FiredBy, IsInt, Clamp;
    if from == |list| {
      assert Tokens(was[from..], saved) + [""] == [""] + [];
      LinesStep(list, "", [], st);
      BlankLine(list, st);
    } else {
      assert was[from..][1..] == was[from + 1..] && was[from] in was && list[from] in list;
      var rest, next := Tokens(was[from + 1..], saved) + [""], st;
      if Saved(was[from]) {
        var line := Token(was[from], saved);
        Assoc([line], Tokens(was[from + 1..], saved), [""]);
        LinesStep(list, line, rest, st);
        LineRestores(was, list, saved, from, st);
        next := UpdateLine(list, line, st);
      } else {
        assert Tokens(was[from..], saved) + [""] == rest;
        Unsaved(was[from], list[from], saved, st);
      }
      OneRestored(list, list[from], saved, st.vars);
      LinesRestore(was, list, saved, from + 1, next);
      SettledStep(was, saved, from, st.vars, next.vars, UpdateLines(list, rest, next).vars);
      if DistinctTargets(list) {
        FiredSame(was, list, saved, st.vars, next.vars, from + 1);
        Assoc(st.calls, FiredBy(was[from], list[from], saved, st.vars), Fired(was, list, saved, st.vars, from + 1));
      }
    }
  }

  lemma Unsaved(o: Entry, e: Entry, saved: map<nat, int>, st: State)
    requires !Saved(o) && o.target == e.target
    ensures !Heard(o, saved) && st.calls + FiredBy(o, e, saved, st.vars) == st.calls
  {}

  lemma OneRestored(list: seq<Entry>, e: Entry, saved: map<nat, int>, vars: map<nat, int>)
    requires Registered(list, vars) && e in list && (e.target.Some? ==> e.target.value in saved)
    requires e.target.Some? ==> IsInt(saved[e.target.value])
    ensures e.target.Some? ==> Registered(list, vars[e.target.value := Clamp(saved[e.target.value])])
  {}

  /** One line, then the rest. */
  lemma SettledStep(
    was: seq<Entry>, saved: map<nat, int>, from: nat, before: map<nat, int>, next: map<nat, int>, after: map<nat, int>)
    requires Registered(was, saved) && from < |was| && was[from] in was
    requires Settled(was, saved, from + 1, next, after)
    requires was[from].target.Some? ==> was[from].target.value in before
    requires next == if was[from].target.Some? && Heard(was[from], saved)
                     then before[was[from].target.value := Clamp(saved[was[from].target.value])] else before
    ensures Settled(was, saved, from, before, after)
  {
    hide Heard, Clamp, IsInt;
    var e := was[from];
    forall t | t in before
      ensures Brings(was, saved, from, t) <==>
              (e.target == Some(t) && Heard(e, saved)) || Brings(was, saved, from + 1, t)
    {
      if Brings(was, saved, from, t) {
        var j :| from <= j < |was| && was[j] in was && was[j].target == Some(t) && Heard(was[j], saved);
        if j > from { assert Brings(was, saved, from + 1, t); }
      }
    }
  }

  /** Reloading a file saved at another time, with other values and texts: every int
      with a line takes the value that was saved (0 for a negative one), all others
      keep theirs, and, if no two entries share an int, the handlers called are, in
      list order, those of the entries whose value differed. */
  lemma ReloadRestores(was: seq<Entry>, list: seq<Entry>, saved: map<nat, int>, now: map<nat, int>, calls: seq<Call>)
    requires Twins(was, list) && Registered(was, saved) && Registered(list, now) && DistinctKeys(list)
    requires forall e | e in was :: WellFormed(e)
    ensures var r := Update(list, Save(was, saved), State(now, calls));
            && Settled(was, saved, 0, now, r.vars)
            && (DistinctTargets(list) ==> r.calls == calls + Fired(was, list, saved, now, 0))
  {
    hide WellFormed, IsInt, UpdateLines, Lines, FiredBy, Heard, Clamp;
    SaveTokens(was, saved);
    CStrWhole(Save(was, saved));
    assert was[0..] == was;
    LinesRestore(was, list, saved, 0, State(now, calls));
    if Tokens(was, saved) == [] {
      assert Tokens(was, saved) + [""] == [""] + [];
      LinesStep(list, "", [], State(now, calls));
      BlankLine(list, State(now, calls));
    }
  }

  /** In particular every registered int with a name of its own that was not negative
      is back, whatever it was set to meanwhile. */
  lemma IntRestored(list: seq<Entry>, saved: map<nat, int>, now: map<nat, int>, calls: seq<Call>, j: nat)
    requires Registered(list, saved) && Registered(list, now) && DistinctKeys(list)
    requires forall e | e in list :: WellFormed(e)
    requires j < |list| && list[j].target.Some? && list[j].key != "" && !Hash(list[j])
    ensures list[j] in list && list[j].target.value in now
    ensures var t, r := list[j].target.value, Update(list, Save(list, saved), State(now, calls));
            t in r.vars && r.vars[t] == if saved[t] >= 0 then saved[t] else 0
  {
    hide WellFormed, IsInt, Update, Save;
    assert list[j] in list;
    ReloadRestores(list, list, saved, now, calls);
    assert Brings(list, saved, 0, list[j].target.value);
  }
}
