/** Updater: fetching the update manifest, parsing it into UpdateInfo records,
    choosing the newest one and posting a single UpdatesNotification. */
module Updater {
  import opened WxText

  /** One advertised release: one line of the manifest. */
  datatype UpdateInfo = UpdateInfo(
    versionCode: int,
    versionName: string,
    url: string,
    bytesTotal: int,
    name: string,
    comment: string,
    md5: string)

  /** The event posted to the device manager once per parse: every parsed
      record, the install candidate (zero or one record) and whether the user
      asked for the check. */
  datatype UpdatesNotification = UpdatesNotification(
    availableVersions: seq<UpdateInfo>,
    updateToInstall: seq<UpdateInfo>,
    userRequest: bool)

  /** The manifest is tokenized on "\r\n" (all white space, so strtok mode) and
      each line on ";" (not white space, so ret-empty mode). */
  const LineDelims: set<char> := {'\r', '\n'}
  const FieldDelims: set<char> := {';'}

  /** A line needs this many fields to become a record. */
  const FieldCount: nat := 7

  function Lines(updates: string): seq<string>
  {
    StrtokTokens(updates, LineDelims)
  }

  function Sections(line: string): seq<string>
  {
    RetEmptyTokens(line, FieldDelims)
  }

  /** The record read from the first seven fields, in manifest order. */
  function RecordOf(sections: seq<string>): (r: UpdateInfo)
    requires |sections| >= FieldCount
  {
    UpdateInfo(ToLong(sections[0]), sections[1], sections[2], ToLong(sections[3]),
               sections[4], sections[5], sections[6])
  }

  /** Each line cut into its fields. */
  function Tokenize(lines: seq<string>): seq<seq<string>>
  {
    seq(|lines|, i requires 0 <= i < |lines| => Sections(lines[i]))
  }

  /** What one tokenized line contributes: nothing when it has fewer than seven
      fields, its record otherwise. */
  function LineRecords(sections: seq<string>): seq<UpdateInfo>
  {
    if |sections| < FieldCount then [] else [RecordOf(sections)]
  }

  /** The records the line loop collects from tokenized lines, in order. */
  function Records(tokenized: seq<seq<string>>): seq<UpdateInfo>
  {
    if tokenized == [] then []
    else Records(tokenized[..|tokenized| - 1]) + LineRecords(tokenized[|tokenized| - 1])
  }

  function ParseManifest(updates: string): seq<UpdateInfo>
  {
    Records(Tokenize(Lines(updates)))
  }

  /** The record the selection loop ends with: starting from `blank`, a later
      record replaces the current one only when its code is strictly greater. */
  function FirstMax(rs: seq<UpdateInfo>, blank: UpdateInfo): UpdateInfo
  {
    if rs == [] then blank
    else
      var h := FirstMax(rs[..|rs| - 1], blank);
      if rs[|rs| - 1].versionCode > h.versionCode then rs[|rs| - 1] else h
  }

  /** `rs[k]` is the earliest record of maximal code, and that code beats `blank`'s. */
  ghost predicate FirstMaxAt(rs: seq<UpdateInfo>, blank: UpdateInfo, k: int)
  {
    && 0 <= k < |rs|
    && blank.versionCode < rs[k].versionCode
    && (forall i :: 0 <= i < k ==> rs[i].versionCode < rs[k].versionCode)
    && (forall i :: 0 <= i < |rs| ==> rs[i].versionCode <= rs[k].versionCode)
  }

  /** Independent statement of the selection rule: `h` is `blank` when no record
      beats `blank`'s code, and otherwise the earliest record whose code is
      maximal. */
  ghost predicate IsFirstMaximum(rs: seq<UpdateInfo>, blank: UpdateInfo, h: UpdateInfo)
  {
    || (h == blank && forall i :: 0 <= i < |rs| ==> rs[i].versionCode <= blank.versionCode)
    || exists k :: FirstMaxAt(rs, blank, k) && h == rs[k]
  }

  /** The notification one parse of `updates` posts. */
  function Decide(updates: string, blank: UpdateInfo, currentCode: int, userRequest: bool): UpdatesNotification
  {
    var available := ParseManifest(updates);
    var highest := FirstMax(available, blank);
    UpdatesNotification(available, if highest.versionCode > currentCode then [highest] else [], userRequest)
  }

  /** The line loop of Updater::parseUpdates: each line is cut at ';', a line
      with fewer than seven fields is skipped, and any other line appends the
      record read from its first seven fields. */
  method ReadVersions(lines: seq<string>) returns (availableVersions: seq<UpdateInfo>)
    ensures availableVersions == Records(Tokenize(lines))
    ensures |availableVersions| <= |lines|
  {
    ghost var tokenized := Tokenize(lines);
    availableVersions := [];
    var i := 0;
    while i < |lines|
      invariant 0 <= i <= |lines|
      invariant availableVersions == Records(tokenized[..i])
    {
      var sections := Sections(lines[i]);
      if |sections| < FieldCount {
        assert Records(tokenized[..i + 1]) == availableVersions by {
          TakeOneMore(tokenized, i);
          RecordsSnoc(tokenized[..i], sections);
        }
        i := i + 1;
        continue;
      }
      var version := RecordOf(sections);
      assert Records(tokenized[..i + 1]) == availableVersions + [version] by {
        TakeOneMore(tokenized, i);
        RecordsSnoc(tokenized[..i], sections);
      }
      availableVersions := availableVersions + [version];
      i := i + 1;
    }
    assert tokenized[..i] == tokenized;
    RecordsLength(tokenized);
  }

  /** The selection loop of Updater::parseUpdates: starting from a default
      record, a record replaces the current choice only when its code is
      strictly greater. */
  method HighestUpdate(availableVersions: seq<UpdateInfo>, blank: UpdateInfo) returns (highestUpdate: UpdateInfo)
    ensures highestUpdate == FirstMax(availableVersions, blank)
    ensures IsFirstMaximum(availableVersions, blank, highestUpdate)
  {
    highestUpdate := blank;
    var j := 0;
    while j < |availableVersions|
      invariant 0 <= j <= |availableVersions|
      invariant highestUpdate == FirstMax(availableVersions[..j], blank)
    {
      var update := availableVersions[j];
      assert availableVersions[..j + 1][..j] == availableVersions[..j];
      if update.versionCode > highestUpdate.versionCode {
        highestUpdate := update;
      }
      j := j + 1;
    }
    assert availableVersions[..j] == availableVersions;
    FirstMaxIsFirstMaximum(availableVersions, blank);
  }

  /** Updater::parseUpdates. `blank` is a default-constructed UpdateInfo and
      `currentCode` is VERSION_CODE, the running build. The returned sequence
      is what the call posts to the device manager: always exactly one
      notification. */
  method ParseUpdates(updates: string, blank: UpdateInfo, currentCode: int, userRequest: bool)
    returns (posted: seq<UpdatesNotification>)
    ensures posted == [Decide(updates, blank, currentCode, userRequest)]
    ensures |posted| == 1 && posted[0].availableVersions == ParseManifest(updates)
    ensures posted[0].userRequest == userRequest && |posted[0].updateToInstall| <= 1
  {
    var lines := Lines(updates);
    var availableVersions := ReadVersions(lines);
    var updateToInstall: seq<UpdateInfo> := [];
    var highestUpdate := HighestUpdate(availableVersions, blank);
    if highestUpdate.versionCode > currentCode {
      updateToInstall := updateToInstall + [highestUpdate];
      assert updateToInstall == [highestUpdate];
    }
    posted := [UpdatesNotification(availableVersions, updateToInstall, userRequest)];
  }

  /** Updater::Entry. `urlOk` is whether the manifest URL parsed, `streamOk`
      whether its input stream opened and reported OK, and `updates` the text
      read from it. Nothing is posted, and nothing parsed, when either fails. */
  method Entry(urlOk: bool, streamOk: bool, updates: string, blank: UpdateInfo, currentCode: int, userRequest: bool)
    returns (posted: seq<UpdatesNotification>)
    ensures !(urlOk && streamOk) ==> posted == []
    ensures urlOk && streamOk ==> posted == [Decide(updates, blank, currentCode, userRequest)]
  {
    if urlOk {
      if streamOk {
        posted := ParseUpdates(updates, blank, currentCode, userRequest);
      } else {
        posted := [];
      }
    } else {
      posted := [];
    }
  }

  // ------------------------------------------------------------ properties

  /** Parsing is line by line: the records of a manifest split anywhere are the
      records of the first part followed by those of the second. */
  lemma {:induction false} RecordsAppend(a: seq<seq<string>>, b: seq<seq<string>>)
    ensures Records(a + b) == Records(a) + Records(b)
  {
    if b == [] {
      assert a + b == a;
    } else {
      var b' := b[..|b| - 1];
      assert (a + b)[..|a + b| - 1] == a + b';
      RecordsAppend(a, b');
    }
  }

  lemma TakeOneMore<T>(s: seq<T>, i: nat)
    requires i < |s|
    ensures s[..i + 1] == s[..i] + [s[i]]
  {
  }

  lemma RecordsSnoc(tokenized: seq<seq<string>>, sections: seq<string>)
    ensures Records(tokenized + [sections]) == Records(tokenized) + LineRecords(sections)
  {
    assert (tokenized + [sections])[..|tokenized|] == tokenized;
  }

  /** Lines are tokenized one by one: the fields of a line do not depend on its neighbours. */
  lemma TokenizeSplice(before: seq<string>, line: string, after: seq<string>)
    ensures Tokenize(before + [line] + after) == Tokenize(before) + [Sections(line)] + Tokenize(after)
  {
    var ls := before + [line] + after;
    var lhs, rhs := Tokenize(ls), Tokenize(before) + [Sections(line)] + Tokenize(after);
    forall i | 0 <= i < |ls| ensures lhs[i] == rhs[i] {
      if i < |before| {
        assert ls[i] == before[i];
      } else if i == |before| {
        assert ls[i] == line;
      } else {
        assert ls[i] == after[i - |before| - 1];
      }
    }
  }

  /** A line with fewer than seven fields adds no record, and the lines after
      it are parsed as if it were not there. */
  lemma MalformedLineSkipped(before: seq<string>, line: string, after: seq<string>)
    requires |Sections(line)| < FieldCount
    ensures Records(Tokenize(before + [line] + after)) == Records(Tokenize(before)) + Records(Tokenize(after))
  {
    var tb, ta, sl := Tokenize(before), Tokenize(after), Sections(line);
    TokenizeSplice(before, line, after);
    RecordsSkip(tb, sl, ta);
  }

  lemma RecordsSkip(tb: seq<seq<string>>, sl: seq<string>, ta: seq<seq<string>>)
    requires |sl| < FieldCount
    ensures Records(tb + [sl] + ta) == Records(tb) + Records(ta)
  {
    RecordsSnoc(tb, sl);
    RecordsAppend(tb + [sl], ta);
  }

  /** A line with at least seven fields adds exactly one record, built from its
      first seven fields (any further fields are ignored), at its place in
      manifest order. */
  lemma WellFormedLineAddsOne(before: seq<string>, line: string, after: seq<string>)
    requires |Sections(line)| >= FieldCount
    ensures Records(Tokenize(before + [line] + after))
         == Records(Tokenize(before)) + [RecordOf(Sections(line)[..FieldCount])] + Records(Tokenize(after))
  {
    var tb, ta, sl := Tokenize(before), Tokenize(after), Sections(line);
    TokenizeSplice(before, line, after);
    RecordsAddOne(tb, sl, ta);
  }

  lemma RecordsAddOne(tb: seq<seq<string>>, sl: seq<string>, ta: seq<seq<string>>)
    requires |sl| >= FieldCount
    ensures Records(tb + [sl] + ta) == Records(tb) + [RecordOf(sl[..FieldCount])] + Records(ta)
  {
    RecordsSnoc(tb, sl);
    RecordsAppend(tb + [sl], ta);
  }

  /** Every record comes from a line of its own: never more records than lines. */
  lemma {:induction false} RecordsLength(tokenized: seq<seq<string>>)
    ensures |Records(tokenized)| <= |tokenized|
  {
    if tokenized != [] {
      RecordsLength(tokenized[..|tokenized| - 1]);
    }
  }

  /** The selection loop's result satisfies the first-maximum rule. */
  lemma {:induction false} FirstMaxIsFirstMaximum(rs: seq<UpdateInfo>, blank: UpdateInfo)
    ensures IsFirstMaximum(rs, blank, FirstMax(rs, blank))
  {
    if rs != [] {
      var p := rs[..|rs| - 1];
      var n := |rs| - 1;
      FirstMaxIsFirstMaximum(p, blank);
      var h := FirstMax(p, blank);
      assert FirstMax(rs, blank) == if rs[n].versionCode > h.versionCode then rs[n] else h;
      if rs[n].versionCode > h.versionCode {
        assert FirstMaxAt(rs, blank, n) by {
          assert forall i :: 0 <= i < n ==> rs[i].versionCode <= h.versionCode by {
            assert forall i :: 0 <= i < n ==> rs[i] == p[i];
            ChoiceBoundsCodes(p, blank, h);
          }
        }
      } else if exists k :: FirstMaxAt(p, blank, k) && h == p[k] {
        var k :| FirstMaxAt(p, blank, k) && h == p[k];
        assert FirstMaxAt(rs, blank, k) by {
          assert forall i :: 0 <= i < n ==> rs[i] == p[i];
        }
      } else {
        assert forall i :: 0 <= i < |rs| ==> rs[i].versionCode <= blank.versionCode by {
          assert forall i :: 0 <= i < n ==> rs[i] == p[i];
        }
      }
    }
  }

  /** Whatever the rule picks bounds every code from above, and `blank`'s code too. */
  lemma ChoiceBoundsCodes(rs: seq<UpdateInfo>, blank: UpdateInfo, h: UpdateInfo)
    requires IsFirstMaximum(rs, blank, h)
    ensures blank.versionCode <= h.versionCode
    ensures forall i :: 0 <= i < |rs| ==> rs[i].versionCode <= h.versionCode
  {
    if h != blank || exists k :: FirstMaxAt(rs, blank, k) && h == rs[k] {
      var k :| FirstMaxAt(rs, blank, k) && h == rs[k];
    }
  }

  /** At most one index satisfies the first-maximum rule. */
  lemma FirstMaxAtUnique(rs: seq<UpdateInfo>, blank: UpdateInfo, k1: int, k2: int)
    requires FirstMaxAt(rs, blank, k1) && FirstMaxAt(rs, blank, k2)
    ensures k1 == k2
  {
  }

  /** The first-maximum rule picks exactly one record: any two choices satisfying it agree. */
  lemma FirstMaximumUnique(rs: seq<UpdateInfo>, blank: UpdateInfo, h1: UpdateInfo, h2: UpdateInfo)
    requires IsFirstMaximum(rs, blank, h1) && IsFirstMaximum(rs, blank, h2)
    ensures h1 == h2
  {
    if exists k :: FirstMaxAt(rs, blank, k) {
      var k :| FirstMaxAt(rs, blank, k);
      assert rs[k].versionCode > blank.versionCode;
      var k1 :| FirstMaxAt(rs, blank, k1) && h1 == rs[k1];
      var k2 :| FirstMaxAt(rs, blank, k2) && h2 == rs[k2];
      FirstMaxAtUnique(rs, blank, k1, k2);
    } else {
      assert h1 == blank && h2 == blank;
    }
  }

  /** The candidate list holds at most one record; it is non-empty exactly when
      some parsed record (or the default record) is newer than the running
      build, and then its one record is the earliest record of maximal code. */
  lemma CandidateIffNewer(updates: string, blank: UpdateInfo, currentCode: int, userRequest: bool)
    ensures var n := Decide(updates, blank, currentCode, userRequest);
      && n.availableVersions == ParseManifest(updates)
      && n.userRequest == userRequest
      && |n.updateToInstall| <= 1
      && (n.updateToInstall != [] <==>
            blank.versionCode > currentCode
            || exists i :: 0 <= i < |n.availableVersions| && n.availableVersions[i].versionCode > currentCode)
      && (n.updateToInstall != [] ==>
            n.updateToInstall[0].versionCode > currentCode
            && IsFirstMaximum(n.availableVersions, blank, n.updateToInstall[0]))
  {
    var rs := ParseManifest(updates);
    FirstMaxIsFirstMaximum(rs, blank);
  }

  /** When some record beats the default code, the chosen record's code is the
      largest code in the manifest and no earlier record reaches it: a tie goes
      to the record that appears first. */
  lemma HighestIsFirstOfMaximalCode(rs: seq<UpdateInfo>, blank: UpdateInfo, i: nat)
    requires i < |rs| && rs[i].versionCode > blank.versionCode
    ensures var h := FirstMax(rs, blank);
      && (forall j :: 0 <= j < |rs| ==> rs[j].versionCode <= h.versionCode)
      && exists k :: 0 <= k < |rs| && rs[k] == h
           && forall j :: 0 <= j < k ==> rs[j].versionCode < h.versionCode
  {
    FirstMaxIsFirstMaximum(rs, blank);
  }

  // ------------------------------------------------------- manifest writing

  /** Records a manifest can carry: codes fit a `long`, text fields hold no
      field or line delimiter, and the md5 field is not empty (an empty last
      field would be dropped by the tokenizer and the line skipped). */
  predicate Writable(r: UpdateInfo)
  {
    && LongMin <= r.versionCode <= LongMax
    && LongMin <= r.bytesTotal <= LongMax
    && r.md5 != []
    && forall t :: t in [r.versionName, r.url, r.name, r.comment, r.md5] ==>
         NoDelim(t, FieldDelims + LineDelims)
  }

  function Fields(r: UpdateInfo): seq<string>
  {
    [Decimal(r.versionCode), r.versionName, r.url, Decimal(r.bytesTotal), r.name, r.comment, r.md5]
  }

  /** One manifest line: the seven fields joined by ';'. */
  function RecordLine(r: UpdateInfo): string
  {
    Join(Fields(r), ';')
  }

  /** A manifest: one line per record, joined by '\n'. */
  function ManifestText(rs: seq<UpdateInfo>): string
  {
    Join(seq(|rs|, i requires 0 <= i < |rs| => RecordLine(rs[i])), '\n')
  }

  lemma FieldsNoDelim(r: UpdateInfo, delims: set<char>)
    requires Writable(r) && delims <= FieldDelims + LineDelims
    ensures forall i :: 0 <= i < |Fields(r)| ==> NoDelim(Fields(r)[i], delims)
  {
    DecimalNoDelim(r.versionCode, delims);
    DecimalNoDelim(r.bytesTotal, delims);
    var fs := Fields(r);
    forall i | 0 <= i < |fs| ensures NoDelim(fs[i], delims) {
      if i != 0 && i != 3 {
        assert fs[i] in [r.versionName, r.url, r.name, r.comment, r.md5];
      }
    }
  }

  /** A written line reads back as the record it was written from. */
  lemma RecordLineRoundTrip(r: UpdateInfo)
    requires Writable(r)
    ensures RecordLine(r) != [] && NoDelim(RecordLine(r), LineDelims)
    ensures Sections(RecordLine(r)) == Fields(r)
  {
    FieldsNoDelim(r, FieldDelims);
    FieldsNoDelim(r, LineDelims);
    RetEmptyJoin(Fields(r), ';', FieldDelims);
    JoinNoDelim(Fields(r), ';', LineDelims);
  }

  /** The fields of a writable record read back as that record. */
  lemma FieldsRoundTrip(r: UpdateInfo)
    requires Writable(r)
    ensures LineRecords(Fields(r)) == [r]
  {
    ToLongDecimal(r.versionCode);
    ToLongDecimal(r.bytesTotal);
  }

  /** Tokenized lines that each yield exactly one record give those records, in order. */
  lemma {:induction false} RecordsEach(tokenized: seq<seq<string>>, rs: seq<UpdateInfo>)
    requires |tokenized| == |rs| && forall i :: 0 <= i < |rs| ==> LineRecords(tokenized[i]) == [rs[i]]
    ensures Records(tokenized) == rs
  {
    if rs != [] {
      var n := |rs| - 1;
      assert Records(tokenized[..n]) == rs[..n] by { RecordsEach(tokenized[..n], rs[..n]); }
      TakeOneMore(rs, n);
      assert rs[..n + 1] == rs;
    }
  }

  /** Writing records as a manifest and parsing it gives back the same records, in the same order. */
  lemma ManifestRoundTrip(rs: seq<UpdateInfo>)
    requires forall i :: 0 <= i < |rs| ==> Writable(rs[i])
    ensures ParseManifest(ManifestText(rs)) == rs
  {
    var ls := seq(|rs|, i requires 0 <= i < |rs| => RecordLine(rs[i]));
    var tokenized := seq(|rs|, i requires 0 <= i < |rs| => Fields(rs[i]));
    forall i | 0 <= i < |rs|
      ensures ls[i] != [] && NoDelim(ls[i], LineDelims) && Sections(ls[i]) == tokenized[i]
      ensures LineRecords(tokenized[i]) == [rs[i]]
    {
      RecordLineRoundTrip(rs[i]);
      FieldsRoundTrip(rs[i]);
    }
    assert Lines(ManifestText(rs)) == ls by {
      if rs != [] {
        StrtokJoin(ls, '\n', LineDelims);
      }
    }
    assert Tokenize(ls) == tokenized;
    RecordsEach(tokenized, rs);
  }

  /** A two-line manifest offering a newer and then an older release, read by
      a build between the two: both records come back in order and the newer
      one is offered. */
  lemma NewerOfTwoOffered(a: UpdateInfo, b: UpdateInfo, blank: UpdateInfo, currentCode: int)
    requires Writable(a) && Writable(b)
    requires blank.versionCode < a.versionCode && b.versionCode <= currentCode < a.versionCode
    ensures var n := Decide(ManifestText([a, b]), blank, currentCode, true);
      n.availableVersions == [a, b] && n.updateToInstall == [a]
  {
    ManifestRoundTrip([a, b]);
    assert [a, b][..1] == [a] && [a][..0] == [];
    assert FirstMax([a], blank) == a;
    assert FirstMax([a, b], blank) == a;
  }

  /** Two records with the same newest code: the one listed first is offered. */
  lemma TieGoesToFirst(a: UpdateInfo, b: UpdateInfo, blank: UpdateInfo, currentCode: int)
    requires Writable(a) && Writable(b) && a != b
    requires blank.versionCode < a.versionCode && currentCode < a.versionCode == b.versionCode
    ensures var n := Decide(ManifestText([a, b]), blank, currentCode, false);
      n.availableVersions == [a, b] && n.updateToInstall == [a]
  {
    ManifestRoundTrip([a, b]);
    assert [a, b][..1] == [a] && [a][..0] == [];
    assert FirstMax([a], blank) == a;
    assert FirstMax([a, b], blank) == a;
  }
}
