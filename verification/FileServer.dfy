/** The key/value list as the driver keeps it: a list filled by prepending, split
    in place, with registered ints and callbacks, saved to and reloaded from text. */
module FileServer {
  import opened Decimal
  import opened KeyValue
  import opened Overwrite

  const BUFF: nat := 100 // the line buffer of save_list_to_file

  /** strsep(&p, "\n") on a C string: the first line, and what follows its newline. */
  method StrSep(s: string) returns (token: string, rest: Option<string>)
    ensures Lines(s) == [token] + if rest.Some? then Lines(rest.value) else []
    ensures rest.Some? ==> |rest.value| < |s|
  {
    var i := 0;
    while i < |s| && s[i] != '\n'
      invariant 0 <= i <= |s| && '\n' !in s[..i]
    {
      i := i + 1;
    }
    token := s[..i];
    if i < |s| {
      rest := Some(s[i + 1..]);
      assert s == token + "\n" + s[i + 1..];
      LinesCons(token, s[i + 1..]);
    } else {
      rest := None;
      assert token == s;
      LinesOne(s);
    }
  }

  function Size(p: Option<string>): nat { if p.Some? then |p.value| + 1 else 0 }

  function Pending(p: Option<string>): seq<string> { if p.Some? then Lines(p.value) else [] }

  /** The entry get_int_value leaves behind for the first entry with the key. */
  function Registering(e: Entry, target: Option<nat>, callback: bool): Entry {
    var e' := if target.Some? && e.value.Some? then e.(target := target, value := None) else e;
    if callback then e'.(callback := true) else e'
  }

  class Store {
    var list: seq<Entry>
    var vars: map<nat, int>
    var calls: seq<Call>

    ghost predicate Valid()
      reads this
    {
      Registered(list, vars)
    }

    ghost function St(): State
      reads this
    {
      State(vars, calls)
    }

    constructor ()
      ensures Valid() && list == [] && vars == map[] && calls == []
    {
      list, vars, calls := [], map[], [];
    }

    /** FS_CMD_LIST_SPLITKV. */
    method SplitKv()
      modifies this`list
      ensures list == SplitAll(old(list))
    {
      hide Cut;
      var i := 0;
      ghost var whole := list;
      while i < |list|
        invariant 0 <= i <= |list| == |whole|
        invariant forall j | 0 <= j < |list| :: list[j] == if j < i then SplitEntry(whole[j]) else whole[j]
      {
        var e := list[i];
        var cut := Cut(e.key);
        if cut.Some? { list := list[i := e.(key := cut.value.0, value := Some(cut.value.1))]; }
        i := i + 1;
      }
      SplitEach(whole, list);
    }

    /** bfs_fill_list in config mode. */
    method FillList(text: string) returns (ret: int)
      modifies this`list
      ensures list == Fill(old(list), text)
      ensures ret == if text == "" then -1 else 1
    {
      hide Kept;
      if text == "" { return -1; }
      var p := Some(CStr(text));
      while p.Some?
        invariant Prepend(Pending(p), list) == Prepend(Lines(CStr(text)), old(list))
        decreases Size(p)
      {
        var token, rest := StrSep(p.value);
        PrependCons(token, Pending(rest), list);
        assert Pending(p) == [token] + Pending(rest);
        if Kept(token) { list := [Entry(token, None, None, false)] + list; }
        p := rest;
      }
      SplitKv();
      return 1;
    }

    /** save_list_to_file.  sprintf needs every line, with its NUL, to fit the buffer. */
    method SaveListToFile() returns (text: string)
      requires Valid() && forall e | e in list :: |SaveLine(e, vars)| < BUFF
      ensures text == Save(list, vars)
    {
      hide SaveLine, IsInt;
      text := "";
      var i := 0;
      while i < |list|
        invariant 0 <= i <= |list| && Registered(list[i..], vars)
        invariant text + Save(list[i..], vars) == Save(list, vars)
      {
        var e := list[i];
        assert list[i..][0] == e && list[i..][1..] == list[i + 1..];
        var buff := "";
        if e.target.Some? {
          buff := e.key + "=" + Dec(vars[e.target.value]) + "\n";
        } else if e.value.Some? {
          buff := e.key + "=" + e.value.value + "\n";
        }
        LineText(e, vars);
        assert |buff| < BUFF;
        Assoc(text, buff, Save(list[i + 1..], vars));
        text := text + buff;
        i := i + 1;
      }
      assert text + Save(list[i..], vars) == text;
    }

    /** The inner loop of update_list: every entry with the key of the line. */
    method UpdateKey(key: string, value: string)
      requires Valid()
      modifies this`vars, this`calls
      ensures Valid() && St() == UpdateEntries(list, key, value, old(St()))
    {
      hide Strtoul, ToInt, IsInt, Registered;
      var i := 0;
      assert list[0..] == list;
      while i < |list|
        invariant 0 <= i <= |list| && Valid()
        invariant UpdateEntries(list[i..], key, value, St()) == UpdateEntries(list, key, value, old(St()))
      {
        var e := list[i];
        ghost var st := St();
        assert list[i..][0] == e && list[i..][1..] == list[i + 1..];
        StillRegistered(list, key, value, i, st);
        if e.key == key {
          if e.target.Some? {
            var now := ToInt(Strtoul(value));
            if vars[e.target.value] != now {
              vars := vars[e.target.value := now];
              if e.callback { calls := calls + [Call(key, value)]; }
            }
          } else if e.value.Some? && e.value.value != value {
            if e.callback { calls := calls + [Call(key, value)]; }
          }
        }
        assert St() == UpdateEntry(e, key, value, st);
        i := i + 1;
      }
    }

    /** update_list. */
    method UpdateList(text: string) returns (ret: int)
      requires Valid()
      modifies this`vars, this`calls
      ensures Valid() && St() == Update(list, text, old(St()))
      ensures ret == if text == "" then -1 else 1
    {
      hide IsInt, Registered;
      if text == "" { return -1; }
      var p := Some(CStr(text));
      while p.Some?
        invariant Valid()
        invariant UpdateLines(list, Pending(p), St()) == UpdateLines(list, Lines(CStr(text)), old(St()))
        decreases Size(p)
      {
        var token, rest := StrSep(p.value);
        assert Pending(p) == [token] + Pending(rest);
        LinesStep(list, token, Pending(rest), St());
        if |token| > 2 && token[0] != '#' {
          var cut := Cut(token);
          if cut.Some? { UpdateKey(cut.value.0, cut.value.1); }
        }
        p := rest;
      }
      return 1;
    }

    /** Saving and reloading at once: nothing moves exactly when no registered int is negative. */
    method SaveAndReload()
      requires Valid() && DistinctKeys(list) && forall e | e in list :: WellFormed(e) && |SaveLine(e, vars)| < BUFF
      modifies this`vars, this`calls
      ensures Valid()
      ensures St() == old(St()) <==> forall e | e in list :: !Volatile(e, old(vars))
    {
      hide Update, Save, SaveLine, WellFormed, Volatile;
      var text := SaveListToFile();
      ReloadSilent(list, vars, calls);
      var _ := UpdateList(text);
    }

    /** get_int_value: the first entry with the key gets the int and the callback. */
    method GetIntValue(key: string, target: Option<nat>, callback: bool) returns (ret: int, ghost k: nat)
      requires Valid()
      requires target.None? ==> forall e | e in list && e.key == key :: e.target.None?
      modifies this`list, this`vars
      ensures Valid() && ret in {1, -1, -2} && (ret == -2 <==> list == [])
      ensures ret == 1 <==> exists e :: e in old(list) && e.key == key
      ensures ret != 1 ==> list == old(list) && vars == old(vars)
      ensures ret == 1 ==>
                && k < |list| == |old(list)| && old(list)[k].key == key
                && (forall i | 0 <= i < k :: old(list)[i].key != key)
                && (old(list)[k].target.Some? ==>
                      list == old(list) && vars == old(vars)[target.value := old(vars)[old(list)[k].target.value]])
                && (old(list)[k].target.None? ==>
                      && list == old(list)[k := Registering(old(list)[k], target, callback)]
                      && list[k].key == key && list[k].callback == (old(list)[k].callback || callback)
                      && (if target.Some? && old(list)[k].value.Some?
                          then list[k].target == target && list[k].value.None?
                          else list[k].target.None? && list[k].value == old(list)[k].value)
                      && vars == if target.Some? && old(list)[k].value.Some?
                                 then old(vars)[target.value := ToInt(Strtoul(old(list)[k].value.value))]
                                 else old(vars))
    {
      hide Strtoul;
      k := 0;
      if list == [] { return -2, k; }
      var i := 0;
      while i < |list|
        invariant 0 <= i <= |list| && list == old(list) && vars == old(vars)
        invariant forall j | 0 <= j < i :: list[j].key != key
      {
        var e := list[i];
        if e.key == key {
          k := i;
          if e.target.Some? {
            vars := vars[target.value := vars[e.target.value]];
          } else {
            if target.Some? && e.value.Some? {
              vars := vars[target.value := ToInt(Strtoul(e.value.value))];
              e := e.(target := target, value := None);
            }
            if callback { e := e.(callback := true); }
            list := list[i := e];
          }
          return 1, k;
        }
        i := i + 1;
      }
      return -1, k;
    }
  }

  lemma {:induction false} SplitEach(list: seq<Entry>, split: seq<Entry>)
    requires |list| == |split| && forall j | 0 <= j < |list| :: split[j] == SplitEntry(list[j])
    ensures split == SplitAll(list)
  {
    hide SplitEntry;
    if list != [] {
      SplitEach(list[1..], split[1..]);
      assert split == [split[0]] + split[1..];
    }
  }

  lemma LineText(e: Entry, vars: map<nat, int>)
    requires e.target.Some? ==> e.target.value in vars
    ensures SaveLine(e, vars) ==
      if e.target.Some? then e.key + "=" + Dec(vars[e.target.value]) + "\n"
      else if e.value.Some? then e.key + "=" + e.value.value + "\n" else ""
  {}

  lemma StillRegistered(list: seq<Entry>, k: string, v: string, i: nat, st: State)
    requires Registered(list, st.vars) && i < |list|
    ensures list[i].target.Some? ==> list[i].target.value in st.vars
    ensures Registered(list, UpdateEntry(list[i], k, v, st).vars)
  {
    hide Strtoul;
    assert list[i] in list;
  }

  /** Registering an int whose text is a plain decimal does not change the file. */
  lemma RegisterKeepsLine(e: Entry, vars: map<nat, int>, t: nat, n: int, callback: bool)
    requires e.target.None? && IsInt(n) && n >= 0 && e.value == Some(Dec(n))
    ensures var e' := Registering(e, Some(t), callback);
            SaveLine(e', vars[t := ToInt(Strtoul(e.value.value))]) == SaveLine(e, vars)
  {
    DecRoundTrip(n);
  }
}
