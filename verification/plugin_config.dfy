/**
 * The translation of the `dns_plugin_config` block into the environment
 * handed to acme.sh's DNS plugin (`AcmeSHBackend._parse_dns_plugin_config`).
 *
 * The block is stripped, split into lines, and every line is stripped and
 * split at its first '='. The source builds a "malformed line" error for a
 * line that is blank or holds no '=' but never raises it, so such a line
 * still produces an entry: its key is the stripped line and its value is
 * empty. Parsing therefore never fails.
 */
module PluginConfig {
  import opened Text

  /** One `key = value` assignment read from a line. */
  datatype Entry = Entry(key: string, value: string)

  /** A line the source calls malformed: blank, or without '='. */
  predicate Malformed(line: string) {
    var t := Trim(line);
    t == [] || '=' !in t
  }

  /** The key part of a partition, once stripped, holds no '='. */
  lemma KeyHasNoEquals(t: string)
    ensures '=' !in Trim(Partition(t, '=').before)
  {
    if '=' in Trim(Partition(t, '=').before) {
      TrimSubset(Partition(t, '=').before, '=');
    }
  }

  /** A stripped line without '=' is its own key ... */
  lemma NoEqualsWholeKey(t: string)
    requires Trimmed(t) && '=' !in t
    ensures Trim(Partition(t, '=').before) == t
  {
    assert Partition(t, '=') == Partitioned(t, false, []);
    TrimIdempotent(t);
  }

  /** ... and its value is empty. */
  lemma NoEqualsEmptyValue(t: string)
    requires '=' !in t
    ensures Trim(Partition(t, '=').after) == []
  {
    assert Partition(t, '=') == Partitioned(t, false, []);
    TrimIdempotent([]);
  }

  /** Reads one line: strip it, split it at the first '=', strip both
      sides. Without '=', the whole stripped line is the key. */
  function ParseLine(line: string): (e: Entry)
    ensures '=' !in e.key
    ensures Trimmed(e.key) && Trimmed(e.value)
    ensures Malformed(line) ==> e == Entry(Trim(line), [])
  {
    var t := Trim(line);
    var p := Partition(t, '=');
    KeyHasNoEquals(t);
    var e := Entry(Trim(p.before), Trim(p.after));
    if '=' in t then e else NoEqualsWholeKey(t); NoEqualsEmptyValue(t); e
  }

  /** A line is split at its first '=' only: the key is the stripped text
      before it, the value the stripped text after it, and the value may
      itself contain '='. */
  lemma SplitAtFirstEquals(line: string, before: string, after: string)
    requires Trim(line) == before + "=" + after
    requires '=' !in before
    ensures ParseLine(line) == Entry(Trim(before), Trim(after))
  {
    PartitionAtFirst(before, '=', after);
  }

  /** The lines of a block: strip the whole block, then split it. */
  function Lines(block: string): (lines: seq<string>)
    ensures forall i :: 0 <= i < |lines| ==> '\n' !in lines[i]
    ensures lines == [] <==> AllSpace(block)
    ensures JoinLines(lines) == Trim(block)
  {
    TrimEmpty(block);
    StrippedLinesJoin(Trim(block));
    SplitLines(Trim(block))
  }

  /** A stripped text does not end in '\n', so its lines join back to it
      exactly. */
  lemma StrippedLinesJoin(t: string)
    requires Trimmed(t)
    ensures JoinLines(SplitLines(t)) == t
  {
    if t != [] {
      assert !IsSpace(t[|t| - 1]);
    }
    SplitLinesJoin(t);
  }

  /** The entries read from the lines, one per line, in order. */
  function Entries(lines: seq<string>): (es: seq<Entry>)
    ensures |es| == |lines|
    ensures forall i :: 0 <= i < |lines| ==> es[i] == ParseLine(lines[i])
  {
    seq(|lines|, i requires 0 <= i < |lines| => ParseLine(lines[i]))
  }

  /** No later entry carries the same key as entry `i`. */
  predicate IsLastWithKey(es: seq<Entry>, i: nat)
    requires i < |es|
  {
    forall j :: i < j < |es| ==> es[j].key != es[i].key
  }

  /** The loop of the source: each entry, in order, overwrites its key. */
  function Collect(es: seq<Entry>, acc: map<string, string>): map<string, string>
    decreases |es|
  {
    if es == [] then acc
    else Collect(es[1..], acc[es[0].key := es[0].value])
  }

  /** The keys `Collect` ends with: the earlier ones and those of the entries. */
  lemma {:induction false} CollectKeys(es: seq<Entry>, acc: map<string, string>)
    ensures forall k :: k in Collect(es, acc) <==>
      (k in acc || exists i :: 0 <= i < |es| && es[i].key == k)
    decreases |es|
  {
    if es != [] {
      var rest := es[1..];
      CollectKeys(rest, acc[es[0].key := es[0].value]);
      forall k
        ensures k in Collect(es, acc) <==> (k in acc || exists i :: 0 <= i < |es| && es[i].key == k)
      {
        if k in Collect(es, acc) && k !in acc && k != es[0].key {
          assert Collect(es, acc) == Collect(rest, acc[es[0].key := es[0].value]);
          assert k !in acc[es[0].key := es[0].value];
          var i :| 0 <= i < |rest| && rest[i].key == k;
          assert es[i + 1].key == k;
        }
        if exists i :: 0 <= i < |es| && es[i].key == k {
          var i :| 0 <= i < |es| && es[i].key == k;
          if i > 0 {
            assert rest[i - 1].key == k;
          }
        }
      }
    }
  }

  /** A key that no entry carries keeps its earlier value. */
  lemma {:induction false} CollectKeepsOthers(es: seq<Entry>, acc: map<string, string>, k: string)
    requires k in acc
    requires forall i :: 0 <= i < |es| ==> es[i].key != k
    ensures k in Collect(es, acc) && Collect(es, acc)[k] == acc[k]
    decreases |es|
  {
    if es != [] {
      assert forall i :: 0 <= i < |es[1..]| ==> es[1..][i] == es[i + 1];
      CollectKeepsOthers(es[1..], acc[es[0].key := es[0].value], k);
    }
  }

  /** Last write wins: a key ends with the value of the last entry that
      carries it. */
  lemma {:induction false} CollectLastWins(es: seq<Entry>, acc: map<string, string>)
    ensures forall i :: 0 <= i < |es| && IsLastWithKey(es, i) ==>
      es[i].key in Collect(es, acc) && Collect(es, acc)[es[i].key] == es[i].value
    decreases |es|
  {
    if es != [] {
      var rest := es[1..];
      var acc' := acc[es[0].key := es[0].value];
      CollectLastWins(rest, acc');
      forall i | 0 <= i < |es| && IsLastWithKey(es, i)
        ensures es[i].key in Collect(es, acc) && Collect(es, acc)[es[i].key] == es[i].value
      {
        if i == 0 {
          assert forall j :: 0 <= j < |rest| ==> rest[j].key != es[0].key by {
            forall j | 0 <= j < |rest| ensures rest[j].key != es[0].key {
              assert rest[j] == es[j + 1];
            }
          }
          CollectKeepsOthers(rest, acc', es[0].key);
        } else {
          assert IsLastWithKey(rest, i - 1) by {
            forall j | i - 1 < j < |rest| ensures rest[j].key != rest[i - 1].key {
              assert rest[j] == es[j + 1];
            }
          }
        }
      }
    }
  }

  /** `_parse_dns_plugin_config`: the environment has exactly one entry
      per distinct key among the lines of the block, and the value of a
      key is the value of the last line that carries it. */
  function ParseDnsPluginConfig(block: string): (env: map<string, string>)
    ensures forall k :: k in env <==>
      exists i :: 0 <= i < |Entries(Lines(block))| && Entries(Lines(block))[i].key == k
    ensures forall i :: 0 <= i < |Entries(Lines(block))| && IsLastWithKey(Entries(Lines(block)), i) ==>
      env[Entries(Lines(block))[i].key] == Entries(Lines(block))[i].value
  {
    var es := Entries(Lines(block));
    CollectKeys(es, map[]);
    CollectLastWins(es, map[]);
    Collect(es, map[])
  }

  /** Parsing never fails: a line the source calls malformed contributes
      its stripped text as a key with an empty value, unless a later line
      overwrites that key. */
  lemma MalformedLineKept(block: string, i: nat)
    requires i < |Lines(block)| && Malformed(Lines(block)[i])
    requires IsLastWithKey(Entries(Lines(block)), i)
    ensures var env := ParseDnsPluginConfig(block);
      Trim(Lines(block)[i]) in env && env[Trim(Lines(block)[i])] == []
  {
  }

  /** In particular an interior blank line yields the entry `"" -> ""`
      when no later line has an empty key. */
  lemma BlankLineGivesEmptyEntry(block: string, i: nat)
    requires i < |Lines(block)| && AllSpace(Lines(block)[i])
    requires IsLastWithKey(Entries(Lines(block)), i)
    ensures var env := ParseDnsPluginConfig(block); "" in env && env[""] == ""
  {
    TrimEmpty(Lines(block)[i]);
  }

  lemma LinesIgnorePadding(w: string, block: string, w': string)
    requires AllSpace(w) && AllSpace(w')
    ensures Lines(w + block + w') == Lines(block)
  {
    TrimPadding(w, block, w');
  }

  lemma ParseFollowsLines(a: string, b: string)
    requires Lines(a) == Lines(b)
    ensures ParseDnsPluginConfig(a) == ParseDnsPluginConfig(b)
  {
  }

  /** Blank lines (and any whitespace) before the first or after the last
      line of the block contribute nothing: the block is stripped first. */
  lemma OuterBlankLinesIgnored(w: string, block: string, w': string)
    requires AllSpace(w) && AllSpace(w')
    ensures ParseDnsPluginConfig(w + block + w') == ParseDnsPluginConfig(block)
  {
    LinesIgnorePadding(w, block, w');
    ParseFollowsLines(w + block + w', block);
  }
}
