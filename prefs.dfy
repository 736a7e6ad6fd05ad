/** The engine's key/value store (PlayerPrefs) as a map from string keys to integers,
    and the per-index key names the game writes into it ("block{i}", "cell{i}"). */
module Prefs {

  /** The decimal digit d as a character. */
  function DigitChar(d: nat): (c: char)
    requires d < 10
    ensures '0' <= c <= '9' && c as int - '0' as int == d
  {
    ('0' as int + d) as char
  }

  /** Decimal rendering of a natural number, as C# string interpolation prints it. */
  function NatToString(n: nat): (s: string)
    ensures 1 <= |s| && (|s| == 1 <==> n < 10)
    ensures forall k :: 0 <= k < |s| ==> '0' <= s[k] <= '9'
  {
    if n < 10 then [DigitChar(n)] else NatToString(n / 10) + [DigitChar(n % 10)]
  }

  /** Different numbers print differently, so indexed keys never collide. */
  lemma {:induction false} NatToStringInjective(a: nat, b: nat)
    requires NatToString(a) == NatToString(b)
    ensures a == b
  {
    var s := NatToString(a);
    if a >= 10 && b >= 10 {
      assert NatToString(a / 10) == s[..|s| - 1] == NatToString(b / 10);
      NatToStringInjective(a / 10, b / 10);
      assert DigitChar(a % 10) == s[|s| - 1] == DigitChar(b % 10);
    } else if a < 10 && b < 10 {
      assert DigitChar(a) == s[0] == DigitChar(b);
    }
  }

  /** The key an element with index i of a persisted collection is stored under. */
  function IndexedKey(prefix: string, i: nat): string
  {
    prefix + NatToString(i)
  }

  function BlockKey(i: nat): string { IndexedKey("block", i) }

  function CellKey(i: nat): string { IndexedKey("cell", i) }

  const LevelKey: string := "LVL"

  const MoneyKey: string := "Money"

  /** Keys with the same prefix coincide only for the same index. */
  lemma IndexedKeyInjective(prefix: string, i: nat, j: nat)
    requires IndexedKey(prefix, i) == IndexedKey(prefix, j)
    ensures i == j
  {
    assert NatToString(i) == IndexedKey(prefix, i)[|prefix|..];
    assert NatToString(j) == IndexedKey(prefix, j)[|prefix|..];
    NatToStringInjective(i, j);
  }

  /** The four namespaces the game uses are disjoint. */
  lemma KeyNamespacesDisjoint(i: nat, j: nat)
    ensures BlockKey(i) != CellKey(j)
    ensures BlockKey(i) != LevelKey && BlockKey(i) != MoneyKey
    ensures CellKey(j) != LevelKey && CellKey(j) != MoneyKey
    ensures LevelKey != MoneyKey
  {
    assert BlockKey(i)[0] == 'b' && CellKey(j)[0] == 'c';
  }

  /** PlayerPrefs.GetInt(key, default). */
  function Lookup(m: map<string, int>, key: string, default: int): int
  {
    if key in m then m[key] else default
  }

  /** The store after SetInt(prefix + i, vals[i]) for i = 0, 1, ..., |vals| - 1 in that order. */
  function WriteIndexed(m: map<string, int>, prefix: string, vals: seq<int>): (r: map<string, int>)
    ensures m.Keys <= r.Keys
  {
    if vals == [] then m
    else WriteIndexed(m, prefix, vals[..|vals| - 1])[IndexedKey(prefix, |vals| - 1) := vals[|vals| - 1]]
  }

  /** After the indexed writes, key prefix + i holds vals[i]. */
  lemma {:induction false} WriteIndexedAt(m: map<string, int>, prefix: string, vals: seq<int>, i: nat)
    requires i < |vals|
    ensures IndexedKey(prefix, i) in WriteIndexed(m, prefix, vals)
    ensures WriteIndexed(m, prefix, vals)[IndexedKey(prefix, i)] == vals[i]
  {
    var n := |vals| - 1;
    if i < n {
      WriteIndexedAt(m, prefix, vals[..n], i);
      if IndexedKey(prefix, i) == IndexedKey(prefix, n) {
        IndexedKeyInjective(prefix, i, n);
      }
    }
  }

  /** A key that is not one of the indexed keys keeps its entry (or its absence). */
  lemma {:induction false} WriteIndexedOther(m: map<string, int>, prefix: string, vals: seq<int>, key: string)
    requires forall i: nat :: i < |vals| ==> key != IndexedKey(prefix, i)
    ensures key in WriteIndexed(m, prefix, vals) <==> key in m
    ensures key in m ==> WriteIndexed(m, prefix, vals)[key] == m[key]
  {
    if vals != [] {
      WriteIndexedOther(m, prefix, vals[..|vals| - 1], key);
    }
  }

  /** The writes add exactly the indexed keys to the store. */
  lemma {:induction false} WriteIndexedKeys(m: map<string, int>, prefix: string, vals: seq<int>)
    ensures WriteIndexed(m, prefix, vals).Keys == m.Keys + set i: nat | i < |vals| :: IndexedKey(prefix, i)
  {
    if vals != [] {
      WriteIndexedKeys(m, prefix, vals[..|vals| - 1]);
    }
  }

  /** The PlayerPrefs store. Save() only flushes to disk, which the model counts. */
  class PlayerPrefs {
    var entries: map<string, int>
    var flushes: nat

    constructor (initial: map<string, int>)
      ensures entries == initial && flushes == 0
    {
      entries := initial;
      flushes := 0;
    }

    function HasKey(key: string): bool
      reads this
    {
      key in entries
    }

    function GetInt(key: string, default: int): (v: int)
      reads this
      ensures key in entries ==> v == entries[key]
      ensures key !in entries ==> v == default
    {
      Lookup(entries, key, default)
    }

    method SetInt(key: string, value: int)
      modifies this`entries
      ensures entries == old(entries)[key := value]
    {
      entries := entries[key := value];
    }

    method Save()
      modifies this`flushes
      ensures flushes == old(flushes) + 1
    {
      flushes := flushes + 1;
    }
  }
}
