/** Snapshot names of the form `dataset@name`, as strings. */
module ZfsNames {
  import opened Strings

  /** Position of the first `@`, or the length of the string. */
  function FirstAt(s: string): (k: nat)
    ensures k <= |s|
  {
    if s == "" || s[0] == '@' then 0 else 1 + FirstAt(s[1..])
  }

  function BuildSnapshot(dataset: string, name: string): (r: string) {
    dataset + "@" + name
  }

  /** What stands before the first `@`. */
  function SnapDataset(s: string): (r: string) {
    s[..FirstAt(s)]
  }

  /** What stands after the last `@`; the whole string if there is none. */
  function SnapName(s: string): (r: string)
    decreases |s|
  {
    if FirstAt(s) == |s| then s else SnapName(s[FirstAt(s) + 1..])
  }

  /** The same snapshot name under another dataset. */
  function SwitchDataset(s: string, dataset: string): (r: string) {
    dataset + s[FirstAt(s)..]
  }

  lemma {:induction false} FirstAtPrefix(dataset: string, rest: string)
    requires '@' !in dataset
    ensures FirstAt(dataset + "@" + rest) == |dataset|
  {
    var s := dataset + "@" + rest;
    if dataset == "" {
      assert s[0] == '@';
    } else {
      FirstAtPrefix(dataset[1..], rest);
      assert s[0] == dataset[0] && s[1..] == dataset[1..] + "@" + rest;
    }
  }

  lemma {:induction false} FirstAtNone(s: string)
    requires '@' !in s
    ensures FirstAt(s) == |s|
  {
    if s != "" {
      FirstAtNone(s[1..]);
    }
  }

  /** Building and taking apart are inverse, and switching the dataset is building with the new one. */
  lemma SnapshotRoundTrip(dataset: string, name: string, other: string)
    requires '@' !in dataset && '@' !in name
    ensures SnapDataset(BuildSnapshot(dataset, name)) == dataset
    ensures SnapName(BuildSnapshot(dataset, name)) == name
    ensures SwitchDataset(BuildSnapshot(dataset, name), other) == BuildSnapshot(other, name)
  {
    var s := BuildSnapshot(dataset, name);
    FirstAtPrefix(dataset, name);
    FirstAtNone(name);
    assert s[..|dataset|] == dataset && s[|dataset| + 1..] == name && s[|dataset|..] == "@" + name;
    assert other + ("@" + name) == other + "@" + name;
  }

  lemma BuildInjective(d: string, n: string, d': string, n': string)
    requires '@' !in d && '@' !in n && '@' !in d' && '@' !in n'
    requires BuildSnapshot(d, n) == BuildSnapshot(d', n')
    ensures d == d' && n == n'
  {
    SnapshotRoundTrip(d, n, "");
    SnapshotRoundTrip(d', n', "");
  }

  lemma CharOf(dataset: string, name: string, k: nat)
    requires k < |BuildSnapshot(dataset, name)|
    ensures BuildSnapshot(dataset, name)[k] ==
              if k < |dataset| then dataset[k] else if k == |dataset| then '@' else name[k - |dataset| - 1]
  {
  }

  lemma MarkedPrefix(prefix: string, name: string)
    ensures "@" + prefix <= "@" + name <==> prefix <= name
  {
    var marker, text := "@" + prefix, "@" + name;
    if |prefix| <= |name| {
      assert text[..|marker|] == "@" + name[..|prefix|];
      assert (text[..|marker|])[1..] == name[..|prefix|] && marker[1..] == prefix;
    }
  }

  /** Looking for `@` and the prefix anywhere in the full name, as the listings do, finds exactly the snapshots whose
      name begins with the prefix. */
  lemma ListedByMarker(dataset: string, name: string, prefix: string)
    requires '@' !in dataset && '@' !in name
    ensures Contains(BuildSnapshot(dataset, name), "@" + prefix) <==> prefix <= name
  {
    var s, marker, n := BuildSnapshot(dataset, name), "@" + prefix, |dataset|;
    assert s[n..] == "@" + name;
    MarkedPrefix(prefix, name);
    if prefix <= name {
      assert OccursAt(s, marker, n);
    }
    forall k: nat | k <= |s| && OccursAt(s, marker, k) ensures k == n {
      assert s[k] == '@';
      CharOf(dataset, name, k);
    }
  }
}
