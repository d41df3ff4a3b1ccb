/** Neighbour reports: every access point gets to know the compatible access points of its own
    network. The plugin sends hostapd the entries it wants and takes back those it once set. */
module Neighbors {
  import opened Wrappers
  import opened Mesh
  import LeafConfig

  /** An access point; `ssid` is in hexadecimal, `report` the neighbour report element. */
  datatype BSS = BSS(interface: string, mac: Bytes, ssid: string, report: Bytes, security: string)

  datatype Key = Key(mac: Bytes, ssid: string)

  const MAX_APS := 128

  predicate ValidBSS(b: BSS) {
    && |b.mac| == 6
    && |b.ssid| % 2 == 0 && 2 <= |b.ssid| <= 64
    && (forall i :: 0 <= i < |b.ssid| ==> LeafConfig.IsHexDigit(b.ssid[i]))
    && 13 <= |b.report| <= 255 && b.report[..6] == b.mac && b.report[10] != 0 && b.report[11] != 0
  }

  // ---- Security strings: wpa|key management|group cipher|pairwise ciphers ----

  predicate IsSpace(c: char) { c == ' ' || c == '\t' || c == '\n' || c == '\r' }

  function Split(s: string, sep: char): (parts: seq<string>)
    ensures |parts| >= 1
  {
    if s == "" then [""]
    else
      var rest := Split(s[1..], sep);
      if s[0] == sep then [""] + rest else [[s[0]] + rest[0]] + rest[1..]
  }

  function Fields(s: string): seq<string> {
    if s == "" then []
    else if IsSpace(s[0]) then Fields(s[1..])
    else
      var n := WordLength(s);
      [s[..n]] + Fields(s[n..])
  }

  function WordLength(s: string): (n: nat)
    ensures n <= |s| && (n < |s| ==> IsSpace(s[n])) && forall i :: 0 <= i < n ==> !IsSpace(s[i])
    ensures s != "" && !IsSpace(s[0]) ==> n > 0
  {
    if s == "" || IsSpace(s[0]) then 0 else 1 + WordLength(s[1..])
  }

  function Join(parts: seq<string>, sep: char): string
    requires |parts| >= 1
  {
    if |parts| == 1 then parts[0] else parts[0] + [sep] + Join(parts[1..], sep)
  }

  /** Splitting loses nothing, and no part contains the separator. */
  lemma {:induction false} SplitJoins(s: string, sep: char)
    ensures Join(Split(s, sep), sep) == s
    ensures forall i :: 0 <= i < |Split(s, sep)| ==> sep !in Split(s, sep)[i]
  {
    if s != "" {
      SplitJoins(s[1..], sep);
      var rest := Split(s[1..], sep);
      if s[0] == sep {
        assert Split(s, sep)[1..] == rest;
        assert Join(Split(s, sep), sep) == "" + [sep] + Join(rest, sep);
      } else {
        var parts := Split(s, sep);
        assert parts[1..] == rest[1..];
        if |rest| > 1 {
          assert Join(parts, sep) == [s[0]] + rest[0] + [sep] + Join(rest[1..], sep);
          assert Join(parts, sep) == [s[0]] + Join(rest, sep);
        }
      }
      assert s == [s[0]] + s[1..];
    }
  }

  predicate SharesCipher(a: string, b: string) {
    exists c :: c in Fields(a) && c in Fields(b)
  }

  predicate Compatible(a: string, b: string) {
    var l, r := Split(a, '|'), Split(b, '|');
    && |l| == 4 && |r| == 4 && l[0] == r[0] && l[1] == r[1] && l[2] == r[2]
    && (l[3] == r[3] || SharesCipher(l[3], r[3]))
  }

  method MeshSecurityCompatible(a: string, b: string) returns (ok: bool)
    ensures ok == Compatible(a, b)
  {
    var left, right := Split(a, '|'), Split(b, '|');
    if |left| != 4 || |right| != 4 || left[0] != right[0] || left[1] != right[1] || left[2] != right[2] {
      return false;
    }
    if left[3] == right[3] {
      return true;
    }
    var ciphers, others := Fields(left[3]), Fields(right[3]);
    for i := 0 to |ciphers|
      invariant forall a, b :: 0 <= a < i && 0 <= b < |others| ==> ciphers[a] != others[b]
    {
      for j := 0 to |others|
        invariant forall b :: 0 <= b < j ==> ciphers[i] != others[b]
      {
        if ciphers[i] == others[j] {
          assert ciphers[i] in ciphers && ciphers[i] in others;
          return true;
        }
      }
    }
    ok := false;
  }

  // ---- What the splitting and the comparison mean ----

  /** A word of a string: a stretch without spaces, bounded by spaces or the ends. */
  predicate IsWord(s: string, w: string) {
    exists i, j :: 0 <= i < j <= |s| && WordAt(s, i, j) && s[i..j] == w
  }

  predicate WordAt(s: string, i: nat, j: nat)
    requires i < j <= |s|
  {
    && (forall k :: i <= k < j ==> !IsSpace(s[k]))
    && (i == 0 || IsSpace(s[i - 1])) && (j == |s| || IsSpace(s[j]))
  }

  lemma {:induction false} FieldsAreWords(s: string, w: string)
    ensures w in Fields(s) <==> IsWord(s, w)
    decreases |s|
  {
    if s == "" {
    } else if IsSpace(s[0]) {
      FieldsAreWords(s[1..], w);
      LaterWords(s, 1, w);
    } else {
      var n := WordLength(s);
      FieldsAreWords(s[n..], w);
      FirstWord(s, n, w);
    }
  }

  /** The same stretch seen from position `n` on. */
  lemma Shifted(s: string, n: nat, i: nat, j: nat)
    requires n <= i < j <= |s| && (i == n && n > 0 ==> IsSpace(s[n - 1]))
    ensures s[n..][i - n..j - n] == s[i..j] && (WordAt(s[n..], i - n, j - n) <==> WordAt(s, i, j))
  {
    var t := s[n..];
    assert forall k :: i - n <= k < j - n ==> t[k] == s[n + k];
    assert forall k :: i <= k < j ==> s[k] == t[k - n];
    assert i > n ==> t[i - n - 1] == s[i - 1];
    assert j < |s| ==> t[j - n] == s[j];
  }

  /** Spaces in front make no difference to the words. */
  lemma LaterWords(s: string, n: nat, w: string)
    requires n <= |s| && forall k :: 0 <= k < n ==> IsSpace(s[k])
    ensures IsWord(s[n..], w) <==> IsWord(s, w)
  {
    var t := s[n..];
    if IsWord(t, w) {
      var i, j :| 0 <= i < j <= |t| && WordAt(t, i, j) && t[i..j] == w;
      Shifted(s, n, n + i, n + j);
    }
    if IsWord(s, w) {
      var i, j :| 0 <= i < j <= |s| && WordAt(s, i, j) && s[i..j] == w;
      assert !IsSpace(s[i]);
      Shifted(s, n, i, j);
    }
  }

  /** The words of a string that begins with one. */
  lemma FirstWord(s: string, n: nat, w: string)
    requires 0 < n <= |s| && (forall k :: 0 <= k < n ==> !IsSpace(s[k])) && (n < |s| ==> IsSpace(s[n]))
    ensures IsWord(s, w) <==> w == s[..n] || IsWord(s[n..], w)
  {
    var t := s[n..];
    assert WordAt(s, 0, n) && s[0..n] == s[..n];
    if IsWord(t, w) {
      var i, j :| 0 <= i < j <= |t| && WordAt(t, i, j) && t[i..j] == w;
      assert !IsSpace(t[i]) && t[0] == s[n];
      Shifted(s, n, n + i, n + j);
    }
    if IsWord(s, w) {
      var i, j :| 0 <= i < j <= |s| && WordAt(s, i, j) && s[i..j] == w;
      assert !IsSpace(s[i]);
      if i == 0 {
        assert j == n;
      } else {
        assert i > n;
        Shifted(s, n, i, j);
      }
    }
  }

  /** Two descriptions are compatible exactly if they have the same protocol, key management and group
      cipher, and pairwise ciphers that are the same or have one in common. */
  ghost predicate Agreed(a: string, b: string, wpa: string, keys: string, group: string, c: string, d: string) {
    && Bare(wpa) && Bare(keys) && Bare(group) && Bare(c) && Bare(d)
    && a == wpa + "|" + keys + "|" + group + "|" + c && b == wpa + "|" + keys + "|" + group + "|" + d
    && (c == d || exists w :: IsWord(c, w) && IsWord(d, w))
  }

  predicate Bare(s: string) { '|' !in s }

  lemma CompatibleExactly(a: string, b: string)
    ensures Compatible(a, b) <==> exists wpa, keys, group, c, d :: Agreed(a, b, wpa, keys, group, c, d)
  {
    if Compatible(a, b) {
      var l, r := Split(a, '|'), Split(b, '|');
      FourParts(a);
      FourParts(b);
      if l[3] != r[3] {
        var w :| w in Fields(l[3]) && w in Fields(r[3]);
        FieldsAreWords(l[3], w);
        FieldsAreWords(r[3], w);
      }
      assert Agreed(a, b, l[0], l[1], l[2], l[3], r[3]);
    }
    if wpa, keys, group, c, d :| Agreed(a, b, wpa, keys, group, c, d) {
      SplitFour(wpa, keys, group, c);
      SplitFour(wpa, keys, group, d);
      if c != d {
        var w :| IsWord(c, w) && IsWord(d, w);
        FieldsAreWords(c, w);
        FieldsAreWords(d, w);
      }
    }
  }

  lemma FourParts(s: string)
    requires |Split(s, '|')| == 4
    ensures var p := Split(s, '|');
            s == p[0] + "|" + p[1] + "|" + p[2] + "|" + p[3] && Bare(p[0]) && Bare(p[1]) && Bare(p[2]) && Bare(p[3])
  {
    SplitJoins(s, '|');
    var p := Split(s, '|');
    assert p[3..] == [p[3]] && p[2..][1..] == p[3..] && p[1..][1..] == p[2..];
    assert Join(p[3..], '|') == p[3];
    assert Join(p[2..], '|') == p[2] + ['|'] + p[3];
    assert Join(p[1..], '|') == p[1] + ['|'] + (p[2] + ['|'] + p[3]);
    assert Join(p, '|') == p[0] + ['|'] + (p[1] + ['|'] + (p[2] + ['|'] + p[3]));
  }

  lemma SplitFour(a: string, b: string, c: string, d: string)
    requires Bare(a) && Bare(b) && Bare(c) && Bare(d)
    ensures Split(a + "|" + b + "|" + c + "|" + d, '|') == [a, b, c, d]
  {
    var cd := c + ("|" + d);
    var bcd := b + ("|" + cd);
    assert Split(d, '|') == [d] by {
      SplitBare(d, "");
      assert d + "" == d;
    }
    NextPart(c, d);
    NextPart(b, cd);
    NextPart(a, bcd);
    Grouped(a, b, c, d);
  }

  lemma Grouped(a: string, b: string, c: string, d: string)
    ensures a + "|" + b + "|" + c + "|" + d == a + ("|" + (b + ("|" + (c + ("|" + d)))))
  {
  }

  lemma NextPart(s: string, t: string)
    requires Bare(s)
    ensures Split(s + ("|" + t), '|') == [s] + Split(t, '|')
  {
    SplitBare(s, "|" + t);
    assert ("|" + t)[1..] == t;
  }

  /** What precedes the first separator is the first part. */
  lemma {:induction false} SplitBare(s: string, t: string)
    requires Bare(s) && (t == "" || t[0] == '|')
    ensures Split(s + t, '|') == [s] + if t == "" then [] else Split(t[1..], '|')
  {
    if s == "" {
      assert s + t == t;
    } else {
      assert (s + t)[0] == s[0] && (s + t)[1..] == s[1..] + t;
      SplitBare(s[1..], t);
      assert [s[0]] + s[1..] == s;
    }
  }

  // ---- Who lists whom ----

  /** `peer` belongs in the table of `local`. */
  predicate Lists(local: BSS, peer: BSS) {
    peer.mac != local.mac && peer.ssid == local.ssid && Compatible(peer.security, local.security)
  }

  function KeyOf(b: BSS): Key { Key(b.mac, b.ssid) }

  /** The entries `local` should have; of two reports under one key the later counts. */
  function Want(all: seq<BSS>, local: BSS): map<Key, Bytes> {
    if all == [] then map[]
    else
      var n := |all| - 1;
      if Lists(local, all[n]) then Want(all[..n], local)[KeyOf(all[n]) := all[n].report] else Want(all[..n], local)
  }

  /** This report is of a compatible access point of the same network, other than this one. */
  predicate PeerReport(local: BSS, b: BSS, key: Key) {
    && b.mac != local.mac && b.ssid == local.ssid && Compatible(b.security, local.security)
    && b.mac == key.mac && b.ssid == key.ssid
  }

  /** The wanted entries are exactly the compatible peers of the same network other than itself, each with
      the last report of it. */
  lemma {:induction false} WantExactly(all: seq<BSS>, local: BSS, key: Key)
    ensures key in Want(all, local) <==> exists i :: 0 <= i < |all| && Lists(local, all[i]) && KeyOf(all[i]) == key
    ensures key in Want(all, local) <==> exists i :: 0 <= i < |all| && PeerReport(local, all[i], key)
    ensures key in Want(all, local) ==>
              exists i :: 0 <= i < |all| && PeerReport(local, all[i], key) && Want(all, local)[key] == all[i].report
                          && forall j :: i < j < |all| ==> !PeerReport(local, all[j], key)
  {
    if all != [] {
      var n := |all| - 1;
      WantExactly(all[..n], local, key);
      assert forall i :: 0 <= i < n ==> all[..n][i] == all[i];
    }
  }

  /** Nodes that apply the same inventory list each other or neither lists the other. */
  lemma MutualListing(all: seq<BSS>, a: BSS, b: BSS)
    requires a in all && b in all
    // The inventory describes each access point once.
    requires forall i, j :: 0 <= i < j < |all| ==> KeyOf(all[i]) != KeyOf(all[j])
    ensures KeyOf(b) in Want(all, a) <==> KeyOf(a) in Want(all, b)
  {
    WantExactly(all, a, KeyOf(b));
    WantExactly(all, b, KeyOf(a));
    var i :| 0 <= i < |all| && all[i] == a;
    var j :| 0 <= j < |all| && all[j] == b;
    assert Lists(a, b) <==> Lists(b, a);
    assert forall k :: 0 <= k < |all| && KeyOf(all[k]) == KeyOf(b) ==> k == j;
    assert forall k :: 0 <= k < |all| && KeyOf(all[k]) == KeyOf(a) ==> k == i;
  }

  // ---- Synchronisation ----

  type Tables = map<string, map<Key, Bytes>>

  type Saved = map<string, seq<Key>>

  function TableOf(t: Tables, interface: string): map<Key, Bytes> {
    if interface in t then t[interface] else map[]
  }

  function SavedKeys(s: Saved, interface: string): set<Key> {
    if interface in s then set k | k in s[interface] else {}
  }

  /** The table after a synchronisation: what was set before and is saved goes, what is wanted comes. */
  function Synced(table: map<Key, Bytes>, saved: set<Key>, want: map<Key, Bytes>): map<Key, Bytes> {
    (table - saved) + want
  }

  predicate DistinctInterfaces(locals: seq<BSS>) {
    forall i, j :: 0 <= i < j < |locals| ==> locals[i].interface != locals[j].interface
  }

  /** One access point's table and its saved keys after a synchronisation. */
  predicate LocalSynced(before: Tables, saved: Saved, after: Tables, resaved: Saved, all: seq<BSS>, local: BSS) {
    var n := local.interface;
    && TableOf(after, n) == Synced(TableOf(before, n), SavedKeys(saved, n), Want(all, local))
    && SavedKeys(resaved, n) == Want(all, local).Keys
  }

  predicate Kept(before: Tables, saved: Saved, after: Tables, resaved: Saved, n: string) {
    TableOf(after, n) == TableOf(before, n) && SavedKeys(resaved, n) == SavedKeys(saved, n)
  }

  predicate Among(locals: seq<BSS>, upto: nat, n: string)
    requires upto <= |locals|
  {
    exists i :: 0 <= i < upto && locals[i].interface == n
  }

  /** The first `upto` access points are in line, and nothing else changed. */
  ghost predicate AllSynced(before: Tables, saved: Saved, after: Tables, resaved: Saved, all: seq<BSS>, locals: seq<BSS>, upto: nat)
    requires upto <= |locals|
  {
    && (forall i :: 0 <= i < upto ==> LocalSynced(before, saved, after, resaved, all, locals[i]))
    && (forall n :: !Among(locals, upto, n) ==> Kept(before, saved, after, resaved, n))
  }

  lemma StaysSynced(before: Tables, saved: Saved, t0: Tables, p0: Saved, t: Tables, p: Saved, all: seq<BSS>, local: BSS)
    requires LocalSynced(before, saved, t0, p0, all, local) && Kept(t0, p0, t, p, local.interface)
    ensures LocalSynced(before, saved, t, p, all, local)
  {
  }

  lemma SyncedSince(before: Tables, saved: Saved, t0: Tables, p0: Saved, t: Tables, p: Saved, all: seq<BSS>, local: BSS)
    requires Kept(before, saved, t0, p0, local.interface) && LocalSynced(t0, p0, t, p, all, local)
    ensures LocalSynced(before, saved, t, p, all, local)
  {
  }

  /** One more access point is in line. */
  lemma SyncedNext(before: Tables, saved: Saved, t0: Tables, p0: Saved, t: Tables, p: Saved, all: seq<BSS>, locals: seq<BSS>, i: nat)
    requires i < |locals| && DistinctInterfaces(locals)
    requires AllSynced(before, saved, t0, p0, all, locals, i)
    requires LocalSynced(t0, p0, t, p, all, locals[i])
    requires forall n :: n != locals[i].interface ==> Kept(t0, p0, t, p, n)
    ensures AllSynced(before, saved, t, p, all, locals, i + 1)
  {
    assert !Among(locals, i, locals[i].interface);
    assert Kept(before, saved, t0, p0, locals[i].interface);
    forall j | 0 <= j < i
      ensures LocalSynced(before, saved, t, p, all, locals[j])
    {
      assert locals[j].interface != locals[i].interface;
      StaysSynced(before, saved, t0, p0, t, p, all, locals[j]);
    }
    SyncedSince(before, saved, t0, p0, t, p, all, locals[i]);
    forall n | !Among(locals, i + 1, n)
      ensures Kept(before, saved, t, p, n)
    {
      assert !Among(locals, i, n) && n != locals[i].interface;
      assert Kept(before, saved, t0, p0, n) && Kept(t0, p0, t, p, n);
    }
  }

  // ---- Entries set by the plugin, over runs ----

  datatype Entry = Entry(interface: string, key: Key)

  function EntriesOf(interface: string, keys: set<Key>): set<Entry> {
    set k | k in keys :: Entry(interface, k)
  }

  function SavedSeq(s: Saved, interface: string): (keys: seq<Key>)
    ensures (set k | k in keys) == SavedKeys(s, interface)
  {
    if interface in s then s[interface] else []
  }

  lemma SavedUpdate(s: Saved, interface: string, keys: seq<Key>)
    ensures SavedKeys(s[interface := keys], interface) == (set k | k in keys)
    ensures forall n :: n != interface ==> SavedKeys(s[interface := keys], n) == SavedKeys(s, n)
  {
  }

  /** Taking back the saved entries that are not wanted comes to the same as taking back all of them. */
  lemma SyncedTable(table: map<Key, Bytes>, saved: set<Key>, want: map<Key, Bytes>)
    ensures (table - (saved - want.Keys)) + want == Synced(table, saved, want)
  {
  }

  /** One more peer adds its entry to the wanted ones, and to any table with them. */
  lemma WantNext(all: seq<BSS>, i: nat, local: BSS, table: map<Key, Bytes>)
    requires i < |all|
    ensures var more, key := Want(all[..i + 1], local), KeyOf(all[i]);
            if Lists(local, all[i])
            then more == Want(all[..i], local)[key := all[i].report]
                 && table + more == (table + Want(all[..i], local))[key := all[i].report]
            else more == Want(all[..i], local)
  {
    assert all[..i + 1][..i] == all[..i];
  }

  lemma OneMoreEntry(interface: string, keys: set<Key>, key: Key)
    ensures EntriesOf(interface, keys + {key}) == EntriesOf(interface, keys) + {Entry(interface, key)}
  {
  }

  ghost function SavedSet(s: Saved): set<Entry> {
    set n, k | n in s && k in s[n] :: Entry(n, k)
  }

  lemma InSavedSet(s: Saved)
    ensures forall e :: e in SavedSet(s) <==> e.key in SavedKeys(s, e.interface)
  {
  }

  /** The entries that the plugin set and did not take back, and those its file lists. */
  datatype State = State(owned: set<Entry>, saved: set<Entry>)

  /** What one run of the synchronisation did: entries set, entries taken back, and the file after it. */
  datatype Round = Round(added: set<Entry>, gone: set<Entry>, resaved: set<Entry>)

  function Next(s: State, r: Round): State {
    State((s.owned + r.added) - r.gone, r.resaved)
  }

  function Run(s: State, rs: seq<Round>): State {
    if rs == [] then s else Next(Run(s, rs[..|rs| - 1]), rs[|rs| - 1])
  }

  /** `e` is wanted by one of the first `i` access points, or by the next one on account of the first
      `j` peers. */
  predicate InPrefix(all: seq<BSS>, locals: seq<BSS>, i: nat, j: nat, e: Entry)
    requires i <= |locals| && j <= |all|
  {
    || (exists l :: 0 <= l < i && locals[l].interface == e.interface && e.key in Want(all, locals[l]))
    || (i < |locals| && locals[i].interface == e.interface && e.key in Want(all[..j], locals[i]))
  }

  /** The contract of one run. Exactly the entries up to some point of the double loop were set; only
      saved entries of access points already done, and not wanted any more, were taken back. A run that
      succeeds went through everything and saves what it set; one that fails leaves the file. */
  ghost predicate RoundOk(s: State, r: Round, ok: bool, all: seq<BSS>, locals: seq<BSS>, i: nat, j: nat) {
    && i <= |locals| && j <= |all|
    && (forall e :: e in r.added <==> InPrefix(all, locals, i, j, e))
    && (forall e :: e in r.gone ==> e in s.saved && e !in r.added && Among(locals, i, e.interface))
    && (ok ==> i == |locals|
               && forall e :: e in r.resaved <==> if Among(locals, |locals|, e.interface) then e in r.added else e in s.saved)
    && (!ok ==> r.resaved == s.saved)
  }

  /** Everything the plugin owns is in its file, so that it can take it back one day. */
  predicate Tidy(s: State) { s.owned <= s.saved }

  /** The run saved what it set, and took back what it no longer lists. */
  predicate Clean(s: State, r: Round) {
    && (forall e :: e in r.added ==> e in r.resaved)
    && (forall e :: e in s.owned && e in s.saved && e !in r.resaved ==> e in r.gone)
  }

  /** An entry that a run should take back: it is ours, saved, and not wanted any more. */
  predicate Owed(s: State, all: seq<BSS>, locals: seq<BSS>, i: nat, j: nat, e: Entry)
    requires i <= |locals| && j <= |all|
  {
    e in s.owned && e in s.saved && Among(locals, |locals|, e.interface) && !InPrefix(all, locals, i, j, e)
  }

  /** In terms of what happened: a run that succeeds is clean exactly if every removal it owed was
      accepted, and one that stops exactly if all it had set by then was already saved. */
  lemma CleanExactly(s: State, r: Round, ok: bool, all: seq<BSS>, locals: seq<BSS>, i: nat, j: nat)
    requires RoundOk(s, r, ok, all, locals, i, j)
    ensures ok ==>
              (Clean(s, r) <==> forall e :: Owed(s, all, locals, i, j, e) ==> e in r.gone)
    ensures !ok ==> (Clean(s, r) <==> forall e :: e in r.added ==> e in s.saved)
  {
    if ok {
      forall e | e in r.added ensures e in r.resaved {
        var l :| 0 <= l < i && locals[l].interface == e.interface && e.key in Want(all, locals[l]);
        assert Among(locals, |locals|, e.interface);
      }
    }
  }

  /** Every saved entry of these access points that is not wanted any more was taken back. */
  ghost predicate TookAll(s: State, r: Round, locals: seq<BSS>) {
    forall e :: e in s.saved && Among(locals, |locals|, e.interface) && e !in r.added ==> e in r.gone
  }

  /** After a run that succeeds and takes back all it should, the plugin's entries of the local access
      points are exactly the wanted ones, if and only if before it every entry of theirs was saved or is
      still wanted. */
  lemma OwnedExactly(s: State, r: Round, all: seq<BSS>, locals: seq<BSS>)
    requires RoundOk(s, r, true, all, locals, |locals|, 0) && TookAll(s, r, locals)
    ensures (forall e: Entry :: Among(locals, |locals|, e.interface) ==>
                           (e in Next(s, r).owned <==> InPrefix(all, locals, |locals|, 0, e)))
            <==> forall e :: e in s.owned && Among(locals, |locals|, e.interface) && e !in r.added ==> e in s.saved
  {
    if forall e: Entry :: Among(locals, |locals|, e.interface) ==> (e in Next(s, r).owned <==> InPrefix(all, locals, |locals|, 0, e)) {
      forall e | e in s.owned && Among(locals, |locals|, e.interface) && e !in r.added
        ensures e in s.saved
      {
        assert e !in Next(s, r).owned;
      }
    }
  }

  predicate Disjoint(rs: seq<Round>) {
    forall i :: 0 <= i < |rs| ==> rs[i].added !! rs[i].gone
  }

  ghost predicate AlwaysTidy(s: State, rs: seq<Round>) {
    forall n :: 0 <= n <= |rs| ==> Tidy(Run(s, rs[..n]))
  }

  ghost predicate AllClean(s: State, rs: seq<Round>) {
    forall n :: 0 <= n < |rs| ==> Clean(Run(s, rs[..n]), rs[n])
  }

  lemma RoundTidy(s: State, r: Round)
    requires Tidy(s) && r.added !! r.gone
    ensures Tidy(Next(s, r)) <==> Clean(s, r)
  {
    if Tidy(Next(s, r)) {
      assert forall e :: e in r.added ==> e in Next(s, r).owned;
      assert forall e :: e in s.owned && e !in r.gone ==> e in Next(s, r).owned;
    }
  }

  lemma PrefixesSnoc(s: State, front: seq<Round>, r: Round)
    ensures Run(s, front + [r]) == Next(Run(s, front), r)
    ensures AlwaysTidy(s, front + [r]) <==> AlwaysTidy(s, front) && Tidy(Next(Run(s, front), r))
    ensures AllClean(s, front + [r]) <==> AllClean(s, front) && Clean(Run(s, front), r)
  {
    var rs := front + [r];
    assert rs[..|front|] == front && rs[..|rs|] == rs;
    assert forall n :: 0 <= n <= |front| ==> rs[..n] == front[..n];
    assert forall n :: 0 <= n < |front| ==> rs[n] == front[n];
  }

  /** Over any sequence of runs: the plugin's entries are in its file after every run, exactly if every
      run was clean. */
  lemma {:induction false} TidyExactly(s: State, rs: seq<Round>)
    requires Tidy(s) && Disjoint(rs)
    ensures AlwaysTidy(s, rs) <==> AllClean(s, rs)
    decreases |rs|
  {
    if rs == [] {
      assert rs[..0] == rs;
    } else {
      var front, r := rs[..|rs| - 1], rs[|rs| - 1];
      assert rs == front + [r];
      TidyExactly(s, front);
      PrefixesSnoc(s, front, r);
      if AlwaysTidy(s, front) {
        assert front[..|front|] == front;
        RoundTidy(Run(s, front), r);
      }
    }
  }

  /** Runs take back saved entries only, so an entry that went astray stays until a run saves it. */
  lemma {:induction false} StrayStays(s: State, rs: seq<Round>, e: Entry)
    requires e in s.owned && e !in s.saved
    requires forall n :: 0 <= n < |rs| ==> rs[n].gone <= Run(s, rs[..n]).saved && e !in rs[n].resaved
    ensures e in Run(s, rs).owned && e !in Run(s, rs).saved
    decreases |rs|
  {
    if rs != [] {
      var m := |rs| - 1;
      assert forall n :: 0 <= n < m ==> rs[..m][..n] == rs[..n];
      StrayStays(s, rs[..m], e);
      assert rs[m].gone <= Run(s, rs[..m]).saved;
    }
  }

  /** It happens: two entries to set, the second refused. The run stops, the first entry is set and not
      saved, and a later run with an empty inventory, though it succeeds, leaves it in the table. */
  lemma FailedRunExample(local: BSS, a: BSS, b: BSS)
    requires Lists(local, a) && Lists(local, b) && KeyOf(a) != KeyOf(b)
    ensures var e := Entry(local.interface, KeyOf(a));
            var s := State({}, {});
            var first, second := Round({e}, {}, {}), Round({}, {}, {});
            && RoundOk(s, first, false, [a, b], [local], 0, 1) && !Clean(s, first)
            && RoundOk(Next(s, first), second, true, [], [local], 1, 0)
            && e in Run(s, [first, second]).owned && e !in Run(s, [first, second]).saved
  {
    var e := Entry(local.interface, KeyOf(a));
    var s := State({}, {});
    var first, second := Round({e}, {}, {}), Round({}, {}, {});
    var all := [a, b];
    assert all[..1] == [a] && [a][..0] == [];
    assert Want([a], local) == map[KeyOf(a) := a.report];
    assert forall x: Entry :: InPrefix(all, [local], 0, 1, x) <==> x.interface == local.interface && x.key == KeyOf(a);
    assert forall x: Entry :: x.interface == local.interface && x.key == KeyOf(a) ==> x == e;
    assert [first, second][..1] == [first] && [first][..0] == [];
    assert Run(s, [first]) == Next(s, first);
  }

  // ---- The run ----

  method AnyInvalid(all: seq<BSS>) returns (bad: bool)
    ensures bad <==> exists i :: 0 <= i < |all| && !ValidBSS(all[i])
  {
    for i := 0 to |all|
      invariant forall j :: 0 <= j < i ==> ValidBSS(all[j])
    {
      if !ValidBSS(all[i]) {
        return true;
      }
    }
    bad := false;
  }

  class Syncer {
    /** hostapd's tables and the state file. */
    var tables: Tables
    var saved: Saved
    /** hostapd accepts every command and the state file can be written. */
    const steady: bool
    /** The entries set and not taken back. */
    ghost var owned: set<Entry>

    ghost function Now(): State
      reads this
    {
      State(owned, SavedSet(saved))
    }

    constructor (tables: Tables, saved: Saved, steady: bool)
      ensures this.tables == tables && this.saved == saved && this.steady == steady && owned == {}
    {
      this.tables, this.saved, this.steady, owned := tables, saved, steady, {};
    }

    method SetNeighbor(interface: string, key: Key, report: Bytes) returns (ok: bool)
      modifies this`tables, this`owned
      ensures steady ==> ok
      ensures tables == if ok then old(tables)[interface := TableOf(old(tables), interface)[key := report]] else old(tables)
      ensures owned == if ok then old(owned) + {Entry(interface, key)} else old(owned)
    {
      ok := *;
      ok := ok || steady;
      if ok {
        tables := tables[interface := TableOf(tables, interface)[key := report]];
        owned := owned + {Entry(interface, key)};
      }
    }

    method RemoveNeighbor(interface: string, key: Key) returns (ok: bool)
      modifies this`tables, this`owned
      ensures steady ==> ok
      ensures tables == if ok then old(tables)[interface := TableOf(old(tables), interface) - {key}] else old(tables)
      ensures owned == if ok then old(owned) - {Entry(interface, key)} else old(owned)
    {
      ok := *;
      ok := ok || steady;
      if ok {
        tables := tables[interface := TableOf(tables, interface) - {key}];
        owned := owned - {Entry(interface, key)};
      }
    }

    /** Sets the entry of one peer if it is wanted. */
    method SetPeer(local: BSS, peer: BSS) returns (ok: bool, wanted: bool)
      modifies this`tables, this`owned
      ensures steady ==> ok
      ensures ok ==> wanted == Lists(local, peer)
      ensures !ok ==> !wanted && tables == old(tables)
      ensures TableOf(tables, local.interface)
              == if wanted then TableOf(old(tables), local.interface)[KeyOf(peer) := peer.report] else TableOf(old(tables), local.interface)
      ensures owned == if wanted then old(owned) + {Entry(local.interface, KeyOf(peer))} else old(owned)
      ensures forall n :: n != local.interface ==> TableOf(tables, n) == TableOf(old(tables), n)
    {
      ok, wanted := true, false;
      var fits := MeshSecurityCompatible(peer.security, local.security);
      if peer.mac != local.mac && peer.ssid == local.ssid && fits {
        ok := SetNeighbor(local.interface, KeyOf(peer), peer.report);
        wanted := ok;
      }
    }

    /** Sets the wanted entries of one access point; gives up at the first refusal, after `n` peers. */
    method SetWanted(local: BSS, all: seq<BSS>) returns (ok: bool, want: set<Key>, ghost n: nat)
      modifies this`tables, this`owned
      ensures steady ==> ok
      ensures n <= |all| && (ok ==> n == |all| && all[..n] == all) && want == Want(all[..n], local).Keys
      ensures TableOf(tables, local.interface) == TableOf(old(tables), local.interface) + Want(all[..n], local)
      ensures owned == old(owned) + EntriesOf(local.interface, want)
      ensures forall n :: n != local.interface ==> TableOf(tables, n) == TableOf(old(tables), n)
    {
      want := {};
      for i := 0 to |all|
        invariant want == Want(all[..i], local).Keys
        invariant TableOf(tables, local.interface) == TableOf(old(tables), local.interface) + Want(all[..i], local)
        invariant owned == old(owned) + EntriesOf(local.interface, want)
        invariant forall n :: n != local.interface ==> TableOf(tables, n) == TableOf(old(tables), n)
      {
        WantNext(all, i, local, TableOf(old(tables), local.interface));
        OneMoreEntry(local.interface, want, KeyOf(all[i]));
        var accepted, wanted := SetPeer(local, all[i]);
        if !accepted {
          return false, want, i;
        }
        want := if wanted then want + {KeyOf(all[i])} else want;
      }
      assert all[..|all|] == all;
      return true, want, |all|;
    }

    /** Takes back the saved entries that are not wanted any more; refusals are ignored. `gone` are
        those accepted. */
    method RemoveStale(interface: string, previous: seq<Key>, want: set<Key>) returns (ghost gone: set<Key>)
      modifies this`tables, this`owned
      ensures gone <= (set k | k in previous) - want && (steady ==> gone == (set k | k in previous) - want)
      ensures TableOf(tables, interface) == TableOf(old(tables), interface) - gone
      ensures owned == old(owned) - EntriesOf(interface, gone)
      ensures forall n :: n != interface ==> TableOf(tables, n) == TableOf(old(tables), n)
    {
      gone := {};
      for i := 0 to |previous|
        invariant gone <= (set k | k in previous[..i]) - want && (steady ==> gone == (set k | k in previous[..i]) - want)
        invariant TableOf(tables, interface) == TableOf(old(tables), interface) - gone
        invariant owned == old(owned) - EntriesOf(interface, gone)
        invariant forall n :: n != interface ==> TableOf(tables, n) == TableOf(old(tables), n)
      {
        assert previous[..i + 1] == previous[..i] + [previous[i]];
        if previous[i] !in want {
          var accepted := RemoveNeighbor(interface, previous[i]);
          gone := if accepted then gone + {previous[i]} else gone;
        }
      }
      assert previous[..|previous|] == previous;
    }

    method ListKeys(want: set<Key>) returns (keys: seq<Key>)
      ensures (set k | k in keys) == want
    {
      keys := [];
      var todo := want;
      while todo != {}
        invariant todo <= want && (set k | k in keys) == want - todo
        decreases todo
      {
        var k :| k in todo;
        assert (set x | x in keys + [k]) == (set x | x in keys) + {k};
        keys, todo := keys + [k], todo - {k};
      }
    }

    /** Brings one access point's table in line, as far as hostapd accepts it. */
    method SyncLocal(local: BSS, all: seq<BSS>, previous: seq<Key>)
      returns (ok: bool, keys: seq<Key>, ghost n: nat, ghost gone: set<Key>)
      modifies this`tables, this`owned
      ensures steady ==> ok && gone == (set k | k in previous) - Want(all, local).Keys
      ensures n <= |all| && (ok ==> n == |all| && all[..n] == all && (set k | k in keys) == Want(all, local).Keys)
      ensures gone <= (set k | k in previous) - Want(all[..n], local).Keys && (!ok ==> gone == {})
      ensures TableOf(tables, local.interface) == (TableOf(old(tables), local.interface) - gone) + Want(all[..n], local)
      ensures owned == (old(owned) + EntriesOf(local.interface, Want(all[..n], local).Keys)) - EntriesOf(local.interface, gone)
      ensures forall n :: n != local.interface ==> TableOf(tables, n) == TableOf(old(tables), n)
    {
      keys, gone := [], {};
      var want;
      ok, want, n := SetWanted(local, all);
      if ok {
        gone := RemoveStale(local.interface, previous, want);
        keys := ListKeys(want);
      }
    }

    /** Brings the tables of the local access points in line with the inventory. With every command
        accepted, each local table then is the old one without the entries saved before and with
        exactly the wanted ones, and the file records the wanted set. In any case `r` is what was done,
        and `i` and `j` say how far it got. */
    method ApplyNeighbors(all: seq<BSS>, locals: seq<BSS>) returns (ok: bool, ghost r: Round, ghost i: nat, ghost j: nat)
      requires DistinctInterfaces(locals)
      modifies this
      ensures steady ==> (ok <==> |all| <= MAX_APS && forall i :: 0 <= i < |all| ==> ValidBSS(all[i]))
      ensures ok && steady ==> AllSynced(old(tables), old(saved), tables, saved, all, locals, |locals|)
      ensures RoundOk(old(Now()), r, ok, all, locals, i, j) && Now() == Next(old(Now()), r)
      ensures ok && steady ==> TookAll(old(Now()), r, locals)
      ensures !ok ==> saved == old(saved)
    {
      StartSync(owned, saved, all, locals, steady);
      var bad := AnyInvalid(all);
      if |all| > MAX_APS || bad {
        return false, Round({}, {}, SavedSet(saved)), 0, 0;
      }
      var previous;
      ghost var added, gone;
      ok, previous, added, gone, i, j := SyncAll(all, locals);
      if ok {
        ok := *;
        ok := ok || steady;
        FinishSync(old(owned), owned, old(saved), previous, added, gone, all, locals, ok, steady);
      }
      if ok {
        saved := previous;
      }
      r := Round(added, gone, SavedSet(saved));
    }

    /** The loop over the local access points, up to the first refusal. */
    method SyncAll(all: seq<BSS>, locals: seq<BSS>)
      returns (done: bool, previous: Saved, ghost added: set<Entry>, ghost gone: set<Entry>, ghost i: nat, ghost j: nat)
      requires DistinctInterfaces(locals)
      modifies this`tables, this`owned
      ensures steady ==> done && AllSynced(old(tables), saved, tables, previous, all, locals, |locals|)
      ensures done ==> i == |locals| && j == 0 && Syncing(old(owned), owned, saved, previous, added, gone, all, locals, |locals|, steady)
      ensures !done ==>
                var r := Round(added, gone, SavedSet(saved));
                RoundOk(State(old(owned), SavedSet(saved)), r, false, all, locals, i, j)
                && State(owned, SavedSet(saved)) == Next(State(old(owned), SavedSet(saved)), r)
    {
      previous, added, gone := saved, {}, {};
      StartSync(owned, saved, all, locals, steady);
      for l := 0 to |locals|
        invariant steady ==> AllSynced(old(tables), saved, tables, previous, all, locals, l)
        invariant Syncing(old(owned), owned, saved, previous, added, gone, all, locals, l, steady)
      {
        done, previous, added, gone, j := SyncOne(all, locals, l, previous, old(tables), old(owned), added, gone);
        if !done {
          return false, previous, added, gone, l, j;
        }
      }
      done, i, j := true, |locals|, 0;
    }

    /** One round of that loop; `t` and `o` are from before the first. */
    method SyncOne(all: seq<BSS>, locals: seq<BSS>, l: nat, previous: Saved, ghost t: Tables, ghost o: set<Entry>,
                   ghost added: set<Entry>, ghost gone: set<Entry>)
      returns (done: bool, previous': Saved, ghost added': set<Entry>, ghost gone': set<Entry>, ghost n: nat)
      requires DistinctInterfaces(locals) && l < |locals| && Syncing(o, owned, saved, previous, added, gone, all, locals, l, steady)
      requires steady ==> AllSynced(t, saved, tables, previous, all, locals, l)
      modifies this`tables, this`owned
      ensures steady ==> done && AllSynced(t, saved, tables, previous', all, locals, l + 1)
      ensures done ==> Syncing(o, owned, saved, previous', added', gone', all, locals, l + 1, steady)
      ensures !done ==>
                var s, r := State(o, SavedSet(saved)), Round(added', gone', SavedSet(saved));
                RoundOk(s, r, false, all, locals, l, n) && State(owned, SavedSet(saved)) == Next(s, r)
    {
      ghost var t0, o0 := tables, owned;
      var name := locals[l].interface;
      var keys;
      ghost var taken;
      done, keys, n, taken := SyncLocal(locals[l], all, SavedSeq(previous, name));
      previous', added', gone' := previous[name := keys], added + EntriesOf(name, Want(all[..n], locals[l]).Keys), gone;
      SavedUpdate(previous, name, keys);
      if done {
        SyncedTable(TableOf(t0, name), SavedKeys(previous, name), Want(all, locals[l]));
        SyncingNext(o, o0, owned, saved, previous, previous', added, gone, all, locals, l, taken, steady);
        gone' := gone + EntriesOf(name, taken);
        if steady {
          SyncedNext(t, saved, t0, previous, tables, previous', all, locals, l);
        }
      } else {
        StopSync(o, o0, owned, saved, previous, added, gone, all, locals, l, n, steady);
      }
    }

    /** Any sequence of runs, some of which fail: the plugin's entries are in its file after each of
        them, exactly if each was clean. */
    method ApplyAll(inputs: seq<(seq<BSS>, seq<BSS>)>) returns (ghost rounds: seq<Round>)
      requires Tidy(Now()) && forall n :: 0 <= n < |inputs| ==> DistinctInterfaces(inputs[n].1)
      modifies this
      ensures Now() == Run(old(Now()), rounds) && |rounds| == |inputs|
      ensures forall n :: 0 <= n < |rounds| ==> SomeRound(Run(old(Now()), rounds[..n]), rounds[n], inputs[n].0, inputs[n].1)
      ensures AlwaysTidy(old(Now()), rounds) <==> AllClean(old(Now()), rounds)
    {
      rounds := [];
      for n := 0 to |inputs|
        invariant Now() == Run(old(Now()), rounds) && |rounds| == n && Disjoint(rounds)
        invariant forall m :: 0 <= m < n ==> SomeRound(Run(old(Now()), rounds[..m]), rounds[m], inputs[m].0, inputs[m].1)
      {
        ghost var before := rounds;
        var ok;
        ghost var r, i, j;
        ok, r, i, j := ApplyNeighbors(inputs[n].0, inputs[n].1);
        rounds := rounds + [r];
        assert rounds[..n] == before;
        assert forall m :: 0 <= m < n ==> rounds[..m] == before[..m] && rounds[m] == before[m];
        assert SomeRound(Run(old(Now()), before), r, inputs[n].0, inputs[n].1);
      }
      TidyExactly(old(Now()), rounds);
    }
  }

  ghost predicate SomeRound(s: State, r: Round, all: seq<BSS>, locals: seq<BSS>) {
    exists ok, i, j :: RoundOk(s, r, ok, all, locals, i, j)
  }

  /** The first `i` access points are done: what was set and taken back so far, and the file to be. */
  ghost predicate Syncing(owned0: set<Entry>, owned: set<Entry>, saved: Saved, previous: Saved, added: set<Entry>,
                          gone: set<Entry>, all: seq<BSS>, locals: seq<BSS>, i: nat, accepts: bool) {
    && i <= |locals| && owned == (owned0 + added) - gone
    && (forall e :: e in added <==> InPrefix(all, locals, i, 0, e))
    && GoneSoFar(saved, added, gone, locals, i, accepts)
    && FileSoFar(saved, previous, added, locals, i)
  }

  ghost predicate GoneSoFar(saved: Saved, added: set<Entry>, gone: set<Entry>, locals: seq<BSS>, i: nat, accepts: bool)
    requires i <= |locals|
  {
    && (forall e :: e in gone ==> e in SavedSet(saved) && e !in added && Among(locals, i, e.interface))
    && (accepts ==> forall e :: e in SavedSet(saved) && Among(locals, i, e.interface) && e !in added ==> e in gone)
  }

  ghost predicate FileSoFar(saved: Saved, previous: Saved, added: set<Entry>, locals: seq<BSS>, i: nat)
    requires i <= |locals|
  {
    forall e :: e in SavedSet(previous) <==> if Among(locals, i, e.interface) then e in added else e in SavedSet(saved)
  }

  /** At the start of the loop nothing is set or taken back. */
  lemma StartSync(owned: set<Entry>, saved: Saved, all: seq<BSS>, locals: seq<BSS>, accepts: bool)
    ensures Syncing(owned, owned, saved, saved, {}, {}, all, locals, 0, accepts)
  {
    assert all[..0] == [];
  }

  /** The wanted entries of one access point join the others. */
  lemma InPrefixNext(all: seq<BSS>, locals: seq<BSS>, i: nat, j: nat, e: Entry)
    requires i < |locals| && j <= |all|
    ensures InPrefix(all, locals, i, j, e)
            <==> InPrefix(all, locals, i, 0, e) || (e.interface == locals[i].interface && e.key in Want(all[..j], locals[i]))
    ensures j == |all| ==> (InPrefix(all, locals, i + 1, 0, e) <==> InPrefix(all, locals, i, j, e))
  {
    assert all[..0] == [] && all[..|all|] == all;
  }

  /** What the next access point adds: entries of its own interface only, and none that were dealt with. */
  lemma NextEntries(added: set<Entry>, gone: set<Entry>, all: seq<BSS>, locals: seq<BSS>, i: nat, want: set<Key>)
    requires i < |locals| && DistinctInterfaces(locals) && want == Want(all, locals[i]).Keys
    requires forall e :: e in added <==> InPrefix(all, locals, i, 0, e)
    requires forall e :: e in gone ==> Among(locals, i, e.interface)
    ensures var n, more := locals[i].interface, EntriesOf(locals[i].interface, want);
            && (forall e :: e in added + more <==> InPrefix(all, locals, i + 1, 0, e))
            && (forall e :: e in more <==> e.interface == n && e.key in want)
            && (forall e :: e in added || e in gone ==> e.interface != n)
            && (forall m :: Among(locals, i + 1, m) <==> Among(locals, i, m) || m == n) && !Among(locals, i, n)
  {
    var n, more := locals[i].interface, EntriesOf(locals[i].interface, want);
    assert all[..|all|] == all && !Among(locals, i, n);
    forall e
      ensures e in added + more <==> InPrefix(all, locals, i + 1, 0, e)
      ensures e in more <==> e.interface == n && e.key in want
    {
      InPrefixNext(all, locals, i, |all|, e);
      if e.interface == n && e.key in want {
        assert e == Entry(n, e.key);
      }
    }
    forall e | e in added ensures e.interface != n {
      assert InPrefix(all, locals, i, 0, e) && all[..0] == [];
    }
  }

  lemma SyncingNext(owned0: set<Entry>, o: set<Entry>, owned: set<Entry>, saved: Saved, p: Saved, previous: Saved,
                    added: set<Entry>, gone: set<Entry>, all: seq<BSS>, locals: seq<BSS>, i: nat, taken: set<Key>, accepts: bool)
    requires i < |locals| && DistinctInterfaces(locals) && Syncing(owned0, o, saved, p, added, gone, all, locals, i, accepts)
    requires var n, want := locals[i].interface, Want(all, locals[i]).Keys;
             && taken <= SavedKeys(p, n) - want && (accepts ==> taken == SavedKeys(p, n) - want)
             && owned == (o + EntriesOf(n, want)) - EntriesOf(n, taken)
             && SavedKeys(previous, n) == want && forall m :: m != n ==> SavedKeys(previous, m) == SavedKeys(p, m)
    ensures var n, want := locals[i].interface, Want(all, locals[i]).Keys;
            Syncing(owned0, owned, saved, previous, added + EntriesOf(n, want), gone + EntriesOf(n, taken), all, locals, i + 1, accepts)
  {
    var n, want := locals[i].interface, Want(all, locals[i]).Keys;
    NextEntries(added, gone, all, locals, i, want);
    Regroup(owned0, added, gone, EntriesOf(n, want), EntriesOf(n, taken));
    FileNext(saved, p, previous, added, locals, i, want);
    GoneNext(saved, p, added, gone, locals, i, want, taken, accepts);
  }

  /** The facts of `NextEntries`. */
  ghost predicate Fits(added: set<Entry>, gone: set<Entry>, locals: seq<BSS>, i: nat, want: set<Key>)
    requires i < |locals|
  {
    var n := locals[i].interface;
    && (forall e :: e in EntriesOf(n, want) <==> e.interface == n && e.key in want)
    && (forall e :: e in added || e in gone ==> e.interface != n)
    && (forall m :: Among(locals, i + 1, m) <==> Among(locals, i, m) || m == n) && !Among(locals, i, n)
  }

  lemma FileNext(saved: Saved, p: Saved, previous: Saved, added: set<Entry>, locals: seq<BSS>, i: nat, want: set<Key>)
    requires i < |locals| && FileSoFar(saved, p, added, locals, i) && Fits(added, {}, locals, i, want)
    requires SavedKeys(previous, locals[i].interface) == want
    requires forall m :: m != locals[i].interface ==> SavedKeys(previous, m) == SavedKeys(p, m)
    ensures FileSoFar(saved, previous, added + EntriesOf(locals[i].interface, want), locals, i + 1)
  {
    InSavedSet(p);
    InSavedSet(previous);
  }

  lemma GoneNext(saved: Saved, p: Saved, added: set<Entry>, gone: set<Entry>, locals: seq<BSS>, i: nat, want: set<Key>,
                 taken: set<Key>, accepts: bool)
    requires i < |locals| && GoneSoFar(saved, added, gone, locals, i, accepts) && FileSoFar(saved, p, added, locals, i)
    requires Fits(added, gone, locals, i, want)
    requires taken <= SavedKeys(p, locals[i].interface) - want
    requires accepts ==> taken == SavedKeys(p, locals[i].interface) - want
    ensures GoneSoFar(saved, added + EntriesOf(locals[i].interface, want), gone + EntriesOf(locals[i].interface, taken),
                      locals, i + 1, accepts)
  {
    var n := locals[i].interface;
    InSavedSet(p);
    forall e: Entry
      ensures e in EntriesOf(n, taken) <==> e.interface == n && e.key in taken
    {
      if e.interface == n && e.key in taken {
        assert e == Entry(n, e.key);
      }
    }
  }

  lemma Regroup(a: set<Entry>, b: set<Entry>, c: set<Entry>, d: set<Entry>, e: set<Entry>)
    requires c !! d
    ensures (((a + b) - c) + d) - e == (a + (b + d)) - (c + e)
  {
  }

  lemma StopSync(owned0: set<Entry>, o: set<Entry>, owned: set<Entry>, saved: Saved, p: Saved, added: set<Entry>,
                 gone: set<Entry>, all: seq<BSS>, locals: seq<BSS>, i: nat, j: nat, accepts: bool)
    requires i < |locals| && j <= |all| && DistinctInterfaces(locals) && Syncing(owned0, o, saved, p, added, gone, all, locals, i, accepts)
    requires owned == (o + EntriesOf(locals[i].interface, Want(all[..j], locals[i]).Keys)) - EntriesOf(locals[i].interface, {})
    ensures var s := State(owned0, SavedSet(saved));
            var r := Round(added + EntriesOf(locals[i].interface, Want(all[..j], locals[i]).Keys), gone, SavedSet(saved));
            RoundOk(s, r, false, all, locals, i, j) && State(owned, SavedSet(saved)) == Next(s, r)
  {
    var n, want := locals[i].interface, Want(all[..j], locals[i]).Keys;
    var more := EntriesOf(n, want);
    assert !Among(locals, i, n);
    forall e
      ensures e in added + more <==> InPrefix(all, locals, i, j, e)
      ensures e in more <==> e.interface == n && e.key in want
    {
      InPrefixNext(all, locals, i, j, e);
      if e.interface == n && e.key in want {
        assert e == Entry(n, e.key);
      }
    }
  }

  lemma FinishSync(owned0: set<Entry>, owned: set<Entry>, saved: Saved, previous: Saved, added: set<Entry>,
                   gone: set<Entry>, all: seq<BSS>, locals: seq<BSS>, ok: bool, accepts: bool)
    requires Syncing(owned0, owned, saved, previous, added, gone, all, locals, |locals|, accepts)
    ensures var s := State(owned0, SavedSet(saved));
            var r := Round(added, gone, SavedSet(if ok then previous else saved));
            RoundOk(s, r, ok, all, locals, |locals|, 0) && State(owned, r.resaved) == Next(s, r) && (accepts ==> TookAll(s, r, locals))
  {
  }
}
