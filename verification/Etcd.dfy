/** The etcd client of src/etcd/etcd_client_shell.cc over the key-value store it talks to. A value is
    a list kept as its tokens joined by commas; `append` and the two-argument `del` read the text,
    rebuild it and write it back. The store a client sees is a map from key text to value text. */
module Etcd {
  import opened Text
  import opened Keys

  const COMMA: char := ','
  const NEWLINE: char := '\n'

  /** What `get` leaves of a value: etcdctl ends it with a newline, and every newline is erased. */
  function Read(kv: map<string, string>, key: string): string {
    if key in kv then Erase(kv[key] + [NEWLINE], NEWLINE) else ""
  }

  function ListAt(kv: map<string, string>, key: string): seq<string> {
    Tokens(Read(kv, key), COMMA)
  }

  /** `std::remove` and `erase` on a vector. */
  function Without(xs: seq<string>, x: string): seq<string> {
    if xs == [] then [] else if xs[0] == x then Without(xs[1..], x) else [xs[0]] + Without(xs[1..], x)
  }

  /** Filtering keeps the order and every other value: part by part, and value by value. */
  lemma {:induction false} WithoutExact(xs: seq<string>, ys: seq<string>, y: string, x: string)
    ensures Without(xs + ys, x) == Without(xs, x) + Without(ys, x)
    ensures Without([y], x) == if y == x then [] else [y]
  {
    if xs == [] {
      assert [] + ys == ys;
    } else {
      WithoutExact(xs[1..], ys, y, x);
      assert (xs + ys)[1..] == xs[1..] + ys;
    }
  }

  function AppendText(out: string, value: string): string {
    if out == "" then value else out + [COMMA] + value
  }

  /** What `append` puts: a failed read is taken for an absent key. */
  function Appended(kv: map<string, string>, key: string, value: string, read: bool): string {
    if read then AppendText(Read(kv, key), value) else value
  }

  function RemoveAt(kv: map<string, string>, key: string, value: string): map<string, string> {
    var text := Join(Without(ListAt(kv, key), value), COMMA);
    if text == "" then kv - {key} else kv[key := text]
  }

  // ---------------------------------------------------------------- lists in strings

  /** A value the list encoding can carry. */
  predicate Token(x: string) {
    x != "" && COMMA !in x && NEWLINE !in x
  }

  ghost predicate Good(xs: seq<string>) {
    forall x <- xs :: Token(x)
  }

  /** A value text that is some non-empty list of tokens, joined. */
  ghost predicate Clean(v: string) {
    v != "" && NEWLINE !in v && Good(Tokens(v, COMMA)) && Join(Tokens(v, COMMA), COMMA) == v
  }

  ghost predicate CleanAt(kv: map<string, string>, key: string) {
    key in kv ==> Clean(kv[key])
  }

  lemma {:induction false} JoinIsClean(xs: seq<string>)
    requires Good(xs) && xs != []
    ensures Clean(Join(xs, COMMA)) && Tokens(Join(xs, COMMA), COMMA) == xs
  {
    assert xs[|xs| - 1] in xs;
    TokensOfJoin(xs, COMMA);
    JoinLacks(xs, COMMA, NEWLINE);
    JoinNonEmpty(xs, COMMA);
  }

  /** A clean entry reads as it is stored; an absent one reads as the empty list. */
  lemma ReadClean(kv: map<string, string>, key: string)
    requires CleanAt(kv, key)
    ensures key in kv ==> Read(kv, key) == kv[key] == Join(ListAt(kv, key), COMMA)
    ensures key in kv <==> ListAt(kv, key) != []
    ensures Good(ListAt(kv, key))
  {
    if key in kv {
      EraseTrailing(kv[key], NEWLINE);
      JoinSplitExact(kv[key], COMMA);
    }
  }

  /** Writing a non-empty list of tokens. */
  lemma {:induction false} WriteList(kv: map<string, string>, key: string, xs: seq<string>)
    requires Good(xs) && xs != []
    ensures var after := kv[key := Join(xs, COMMA)];
            CleanAt(after, key) && ListAt(after, key) == xs
  {
    JoinIsClean(xs);
    ReadClean(kv[key := Join(xs, COMMA)], key);
  }

  /** `append` adds the value at the end of the list. */
  lemma AppendRefines(kv: map<string, string>, key: string, value: string)
    requires CleanAt(kv, key) && Token(value)
    ensures var after := kv[key := AppendText(Read(kv, key), value)];
            CleanAt(after, key) && ListAt(after, key) == ListAt(kv, key) + [value]
  {
    var xs := ListAt(kv, key);
    ReadClean(kv, key);
    JoinAppend(xs, value, COMMA);
    assert AppendText(Read(kv, key), value) == Join(xs + [value], COMMA);
    WriteList(kv, key, xs + [value]);
  }

  /** A put made from an earlier read adds its value to the list as it is now exactly when that is the
      list the read saw. What it leaves is the list it saw and the value. */
  lemma StaleAppendExact(seen: map<string, string>, now: map<string, string>, key: string, value: string)
    requires CleanAt(seen, key) && CleanAt(now, key) && Token(value)
    ensures var after := now[key := AppendText(Read(seen, key), value)];
            && CleanAt(after, key) && ListAt(after, key) == ListAt(seen, key) + [value]
            && (ListAt(after, key) == ListAt(now, key) + [value] <==> ListAt(seen, key) == ListAt(now, key))
  {
    var xs := ListAt(seen, key);
    var after := now[key := AppendText(Read(seen, key), value)];
    AppendRefines(seen, key, value);
    ReadClean(seen, key);
    JoinAppend(xs, value, COMMA);
    WriteList(now, key, xs + [value]);
    if xs + [value] == ListAt(now, key) + [value] {
      assert xs == (xs + [value])[..|xs|] == (ListAt(now, key) + [value])[..|xs|] == ListAt(now, key);
    }
  }

  /** Overwriting a list with one value, as `append` does after a failed read, adds the value exactly
      when there was no list: otherwise every other entry is lost. */
  lemma OverwriteExact(kv: map<string, string>, key: string, value: string)
    requires CleanAt(kv, key) && Token(value)
    ensures var after := kv[key := Appended(kv, key, value, false)];
            && CleanAt(after, key) && ListAt(after, key) == [value]
            && (ListAt(after, key) == ListAt(kv, key) + [value] <==> key !in kv)
            && (forall x <- ListAt(kv, key) :: x != value ==> x !in ListAt(after, key))
  {
    ReadClean(kv, key);
    assert Join([value], COMMA) == value;
    WriteList(kv, key, [value]);
  }

  lemma {:induction false} WithoutGood(xs: seq<string>, x: string)
    requires Good(xs)
    ensures Good(Without(xs, x))
  {
    if xs != [] { WithoutGood(xs[1..], x); }
  }

  /** The two-argument `del` filters the list, and removes the key exactly when nothing is left. */
  lemma {:induction false} RemoveRefines(kv: map<string, string>, key: string, value: string)
    requires CleanAt(kv, key)
    ensures var after := RemoveAt(kv, key, value);
            && CleanAt(after, key)
            && ListAt(after, key) == Without(ListAt(kv, key), value)
            && (key in after <==> Without(ListAt(kv, key), value) != [])
  {
    var xs := Without(ListAt(kv, key), value);
    ReadClean(kv, key);
    WithoutGood(ListAt(kv, key), value);
    if xs != [] {
      JoinIsClean(xs);
      WriteList(kv, key, xs);
    }
  }

  // ---------------------------------------------------------------- logical entries

  /** Every logical entry and its list; an absent key is the empty list. */
  type View = imap<Key, seq<string>>

  lemma Rewritten(v: View, k: Key, xs: seq<string>, ys: seq<string>)
    ensures v[k := xs][k := ys] == v[k := ys]
  {
  }

  ghost function ViewOf(kv: map<string, string>): View {
    imap k: Key {:trigger KeyText(k)} | true :: ListAt(kv, KeyText(k))
  }

  /** All entries hold lists of tokens. */
  ghost predicate Stored(kv: map<string, string>) {
    forall k: Key :: CleanAt(kv, KeyText(k))
  }

  ghost predicate IsKeyText(s: string) {
    exists k: Key :: KeyText(k) == s
  }

  /** What the store holds under keys that are none of the builders'. */
  ghost function Foreign(kv: map<string, string>): map<string, string> {
    map s | s in kv && !IsKeyText(s) :: kv[s]
  }

  ghost predicate SameExcept(a: map<string, string>, b: map<string, string>, t: string) {
    forall s :: s != t ==> (s in a <==> s in b) && (s in a ==> a[s] == b[s])
  }

  /** Entries other than the one written are framed by the injectivity of key texts. */
  lemma OtherEntry(kv: map<string, string>, k: Key, after: map<string, string>, l: Key)
    requires SameExcept(kv, after, KeyText(k)) && l != k
    ensures ListAt(after, KeyText(l)) == ListAt(kv, KeyText(l))
    ensures CleanAt(kv, KeyText(l)) ==> CleanAt(after, KeyText(l))
  {
    if KeyText(l) == KeyText(k) { KeyTextInjective(k, l); }
  }

  /** A change of one key's text is a change of one entry. */
  lemma OneEntry(kv: map<string, string>, k: Key, after: map<string, string>, xs: seq<string>)
    requires Stored(kv) && CleanAt(after, KeyText(k)) && ListAt(after, KeyText(k)) == xs
    requires SameExcept(kv, after, KeyText(k))
    ensures Stored(after) && ViewOf(after) == ViewOf(kv)[k := xs]
  {
    forall l: Key
      ensures CleanAt(after, KeyText(l))
      ensures ViewOf(after)[l] == ViewOf(kv)[k := xs][l]
    {
      if l != k { OtherEntry(kv, k, after, l); }
    }
  }

  lemma ForeignFrame(kv: map<string, string>, k: Key, after: map<string, string>)
    requires SameExcept(kv, after, KeyText(k))
    ensures Foreign(after) == Foreign(kv)
  {
    assert IsKeyText(KeyText(k));
  }

  /** Entry `k` was given the list `xs`, and nothing else about the store changed. */
  ghost predicate Changed(before: map<string, string>, after: map<string, string>, k: Key, xs: seq<string>) {
    Stored(after) && ViewOf(after) == ViewOf(before)[k := xs] && Foreign(after) == Foreign(before)
  }

  lemma PutEntry(kv: map<string, string>, k: Key, value: string)
    requires Stored(kv) && Token(value)
    ensures Changed(kv, kv[KeyText(k) := value], k, [value])
  {
    assert Join([value], COMMA) == value;
    WriteList(kv, KeyText(k), [value]);
    OneEntry(kv, k, kv[KeyText(k) := value], [value]);
    ForeignFrame(kv, k, kv[KeyText(k) := value]);
  }

  /** The list `append` adds to: the stored one, or none when the read failed. */
  ghost function Seen(xs: seq<string>, read: bool): seq<string> {
    if read then xs else []
  }

  lemma AppendEntry(kv: map<string, string>, k: Key, value: string, read: bool)
    requires Stored(kv) && Token(value)
    ensures Changed(kv, kv[KeyText(k) := Appended(kv, KeyText(k), value, read)], k, Seen(ViewOf(kv)[k], read) + [value])
  {
    hide Stored, ListAt, KeyText, Read, AppendText, Token, Foreign;
    if read {
      AppendReadEntry(kv, k, value);
    } else {
      assert [] + [value] == [value];
      PutEntry(kv, k, value);
    }
  }

  lemma AppendReadEntry(kv: map<string, string>, k: Key, value: string)
    requires Stored(kv) && Token(value)
    ensures Changed(kv, kv[KeyText(k) := AppendText(Read(kv, KeyText(k)), value)], k, ViewOf(kv)[k] + [value])
  {
    var after := kv[KeyText(k) := AppendText(Read(kv, KeyText(k)), value)];
    AppendRefines(kv, KeyText(k), value);
    OneEntry(kv, k, after, ViewOf(kv)[k] + [value]);
    ForeignFrame(kv, k, after);
  }

  lemma {:induction false} RemoveEntry(kv: map<string, string>, k: Key, value: string)
    requires Stored(kv)
    ensures Changed(kv, RemoveAt(kv, KeyText(k), value), k, Without(ViewOf(kv)[k], value))
  {
    var after := RemoveAt(kv, KeyText(k), value);
    RemoveRefines(kv, KeyText(k), value);
    OneEntry(kv, k, after, Without(ViewOf(kv)[k], value));
    ForeignFrame(kv, k, after);
  }

  lemma DelEntry(kv: map<string, string>, k: Key)
    requires Stored(kv)
    ensures Changed(kv, kv - {KeyText(k)}, k, [])
  {
    OneEntry(kv, k, kv - {KeyText(k)}, []);
    ForeignFrame(kv, k, kv - {KeyText(k)});
  }

  /** An entry holding one token reads as that token, an empty one as the empty text. */
  lemma ReadEntry(kv: map<string, string>, k: Key)
    requires Stored(kv)
    ensures Good(ViewOf(kv)[k])
    ensures Read(kv, KeyText(k)) == Join(ViewOf(kv)[k], COMMA)
    ensures Read(kv, KeyText(k)) == "" <==> ViewOf(kv)[k] == []
  {
    assert CleanAt(kv, KeyText(k));
    ReadClean(kv, KeyText(k));
  }

  /** A store is determined by its logical entries and its foreign keys. */
  lemma StoreDetermined(a: map<string, string>, b: map<string, string>)
    requires Stored(a) && Stored(b) && ViewOf(a) == ViewOf(b) && Foreign(a) == Foreign(b)
    ensures a == b
  {
    forall s
      ensures (s in a <==> s in b) && (s in a && s in b ==> a[s] == b[s])
    {
      if IsKeyText(s) {
        var k: Key :| KeyText(k) == s;
        assert CleanAt(a, KeyText(k)) && CleanAt(b, KeyText(k));
        assert ViewOf(a)[k] == ViewOf(b)[k];
        ReadClean(a, s);
        ReadClean(b, s);
      } else {
        assert s in Foreign(a) <==> s in Foreign(b);
        assert s in Foreign(a) ==> Foreign(a)[s] == Foreign(b)[s];
      }
    }
  }

  lemma NothingJoined()
    ensures Join([], COMMA) == ""
  {
  }

  /** One more value is put behind a comma, but for the first. */
  lemma JoinNext(values: seq<string>, i: nat)
    requires i < |values|
    ensures Join(values[..i], COMMA) + (if i > 0 then [COMMA] else "") + values[i] == Join(values[..i + 1], COMMA)
  {
    assert values[..i + 1] == values[..i] + [values[i]];
    JoinAppend(values[..i], values[i], COMMA);
    assert Join([], COMMA) + "" + values[i] == values[i];
  }

  class Client {
    var kv: map<string, string>
    /** How many writes have failed so far. */
    ghost var lost: nat

    /** Commands of a reliable kind never fail; the others fail or succeed arbitrarily, and a failed
        command has no effect. */
    const reliableReads: bool
    const reliableWrites: bool

    constructor (kv: map<string, string>, reliableReads: bool, reliableWrites: bool)
      ensures this.kv == kv && this.reliableReads == reliableReads && this.reliableWrites == reliableWrites
    {
      this.kv, this.reliableReads, this.reliableWrites := kv, reliableReads, reliableWrites;
      lost := 0;
    }

    method Put(key: string, value: string) returns (ok: bool)
      requires key != "" && value != ""
      modifies this`kv, this`lost
      ensures kv == if ok then old(kv)[key := value] else old(kv)
      ensures lost == if ok then old(lost) else old(lost) + 1
      ensures reliableWrites ==> ok
    {
      ok := *;
      ok := ok || reliableWrites;
      if ok { kv := kv[key := value]; } else { lost := lost + 1; }
    }

    method Get(key: string) returns (ok: bool, value: string)
      requires key != ""
      ensures value == if ok then Read(kv, key) else ""
      ensures reliableReads ==> ok
    {
      ok := *;
      ok := ok || reliableReads;
      var out := if ok && key in kv then kv[key] + [NEWLINE] else "";
      value := if out == "" then out else Erase(out, NEWLINE);
    }

    method Del(key: string) returns (ok: bool)
      requires key != ""
      modifies this`kv, this`lost
      ensures kv == if ok then old(kv) - {key} else old(kv)
      ensures lost == if ok then old(lost) else old(lost) + 1
      ensures reliableWrites ==> ok
    {
      ok := *;
      ok := ok || reliableWrites;
      if ok { kv := kv - {key}; } else { lost := lost + 1; }
    }

    /** `read` tells whether the read went through. When it did not, the value replaces the list. */
    method Append(key: string, value: string) returns (ok: bool, ghost read: bool)
      requires key != "" && value != ""
      modifies this`kv, this`lost
      ensures kv == if ok then old(kv)[key := Appended(old(kv), key, value, read)] else old(kv)
      ensures lost == if ok then old(lost) else old(lost) + 1
      ensures reliableReads ==> read
      ensures reliableWrites ==> ok
    {
      var got, out := Get(key);
      read := got;
      if got {
        out := AppendText(out, value);
      } else {
        out := value;
      }
      ok := Put(key, out);
    }

    method List(key: string) returns (ok: bool, results: seq<string>)
      requires key != ""
      ensures results == if ok then ListAt(kv, key) else []
      ensures reliableReads ==> ok
    {
      var output;
      ok, output := Get(key);
      results := [];
      if ok {
        results := Split(output, COMMA);
      }
    }

    /** Deletes every copy of one value, and the key with the last of them. */
    method DelValue(key: string, value: string) returns (ok: bool)
      requires key != ""
      modifies this`kv, this`lost
      ensures kv == if ok then RemoveAt(old(kv), key, value) else old(kv)
      ensures lost == old(lost) || (!ok && lost == old(lost) + 1)
      ensures reliableReads && !ok ==> lost == old(lost) + 1
      ensures reliableReads && reliableWrites ==> ok
    {
      hide Join, Tokens, Without;
      var values;
      ok, values := List(key);
      if !ok { return; }
      assert Join([], COMMA) == "" by { NothingJoined(); }
      values := Without(values, value);
      var toPut := "";
      var i := 0;
      while i < |values|
        invariant 0 <= i <= |values| && kv == old(kv) && lost == old(lost)
        invariant toPut == Join(values[..i], COMMA) + (if 0 < i < |values| then [COMMA] else "")
      {
        JoinNext(values, i);
        toPut := toPut + values[i];
        if i != |values| - 1 {
          toPut := toPut + [COMMA];
        }
        i := i + 1;
      }
      assert values[..|values|] == values;
      assert toPut == Join(Without(ListAt(kv, key), value), COMMA);
      if toPut == "" {
        ok := Del(key);
      } else {
        ok := Put(key, toPut);
      }
    }
  }
}
