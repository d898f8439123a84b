/**
 * The roadmap sync script: each CSV row of the roadmap becomes a draft item
 * of a GitHub project, and its status, window and priority become options of
 * the project's single-select fields. Matching is by exact title against the
 * items already on the board. In dry-run mode nothing is sent to the board.
 * The board's answers and the ids it hands out are inputs, and every change
 * the script would make is an `Edit` in the order it is made.
 */
module SyncRoadmap {
  import opened Wrappers
  import opened Text

  // --------------------------------------------------------------- normalize

  /** The letters and digits of `s`, in order. */
  function KeepAlnum(s: string): (r: string)
    ensures |r| <= |s|
    ensures forall i :: 0 <= i < |r| ==> IsAlnum(r[i])
  {
    if s == [] then [] else (if IsAlnum(s[0]) then [s[0]] else []) + KeepAlnum(s[1..])
  }

  lemma {:induction false} KeepAlnumLower(s: string)
    requires forall k :: 0 <= k < |s| ==> !IsUpper(s[k])
    ensures forall k :: 0 <= k < |KeepAlnum(s)| ==> !IsUpper(KeepAlnum(s)[k])
  {
    if s != [] {
      KeepAlnumLower(s[1..]);
    }
  }

  lemma {:induction false} KeepAlnumAppend(a: string, b: string)
    ensures KeepAlnum(a + b) == KeepAlnum(a) + KeepAlnum(b)
  {
    if a == [] {
      assert a + b == b;
    } else {
      assert (a + b)[1..] == a[1..] + b;
      KeepAlnumAppend(a[1..], b);
    }
  }

  lemma {:induction false} KeepAlnumSpaces(s: string)
    requires forall k :: 0 <= k < |s| ==> IsSpace(s[k])
    ensures KeepAlnum(s) == []
  {
    if s != [] {
      KeepAlnumSpaces(s[1..]);
    }
  }

  lemma {:induction false} KeepAlnumFixed(s: string)
    requires forall k :: 0 <= k < |s| ==> IsAlnum(s[k])
    ensures KeepAlnum(s) == s
  {
    if s != [] {
      KeepAlnumFixed(s[1..]);
    }
  }

  /** `normalize`: the letters and digits of the lower-cased, stripped text. */
  function Normalize(value: string): (r: string)
    ensures forall i :: 0 <= i < |r| ==> IsAlnum(r[i])
  {
    KeepAlnum(Strip(Lower(value)))
  }

  lemma KeepAlnumDropFront(s: string, i: nat)
    requires i <= |s|
    requires forall k :: 0 <= k < i ==> IsSpace(s[k])
    ensures KeepAlnum(s[i..]) == KeepAlnum(s)
  {
    assert s == s[..i] + s[i..];
    KeepAlnumAppend(s[..i], s[i..]);
    KeepAlnumSpaces(s[..i]);
  }

  lemma KeepAlnumDropBack(s: string, j: nat)
    requires j <= |s|
    requires forall k :: j <= k < |s| ==> IsSpace(s[k])
    ensures KeepAlnum(s[..j]) == KeepAlnum(s)
  {
    var back := s[j..];
    assert s == s[..j] + back;
    assert forall k :: 0 <= k < |back| ==> IsSpace(back[k]) by {
      forall k | 0 <= k < |back| ensures IsSpace(back[k]) {
        assert back[k] == s[j + k];
      }
    }
    KeepAlnumAppend(s[..j], back);
    KeepAlnumSpaces(back);
  }

  /** Dropping whitespace from the ends does not change the letters and digits. */
  lemma KeepAlnumFramed(l: string, i: nat, j: nat)
    requires i <= j <= |l|
    requires forall k :: 0 <= k < i ==> IsSpace(l[k])
    requires forall k :: j <= k < |l| ==> IsSpace(l[k])
    ensures KeepAlnum(l[i..j]) == KeepAlnum(l)
  {
    KeepAlnumDropBack(l, j);
    var t := l[..j];
    assert forall k :: 0 <= k < i ==> IsSpace(t[k]);
    KeepAlnumDropFront(t, i);
    assert t[i..] == l[i..j];
  }

  lemma StripKeepAlnum(l: string)
    ensures KeepAlnum(Strip(l)) == KeepAlnum(l)
  {
    StripIsSlice(l);
    var i, j :| && 0 <= i <= j <= |l| && Strip(l) == l[i..j]
                && (forall k :: 0 <= k < i ==> IsSpace(l[k]))
                && (forall k :: j <= k < |l| ==> IsSpace(l[k]));
    KeepAlnumFramed(l, i, j);
  }

  /** Stripping makes no difference to `normalize`, and what it returns is
      lower case. */
  lemma NormalizeMeaning(value: string)
    ensures Normalize(value) == KeepAlnum(Lower(value))
    ensures forall i :: 0 <= i < |Normalize(value)| ==> !IsUpper(Normalize(value)[i])
  {
    var l := Lower(value);
    StripKeepAlnum(l);
    KeepAlnumLower(l);
  }

  /** `normalize` is idempotent. */
  lemma NormalizeIdempotent(value: string)
    ensures Normalize(Normalize(value)) == Normalize(value)
  {
    var n := Normalize(value);
    NormalizeMeaning(value);
    NormalizeMeaning(n);
    assert Lower(n) == n;
    KeepAlnumFixed(n);
  }

  // -------------------------------------------------------------------- body

  /** A CSV row: column name to cell text. A column the row lacks is absent. */
  type CsvRow = map<string, string>

  /** `(row.get(key) or "").strip()`. */
  function Column(row: CsvRow, key: string): string {
    Strip(if key in row then row[key] else "")
  }

  /** The metadata columns, in the order the body lists them. */
  const MetaKeys: seq<string> := ["Iteration", "Priority", "Labels"]

  /** The keys among `keys` whose column is not blank, in order. */
  function FilledKeys(row: CsvRow, keys: seq<string>): (filled: seq<string>)
    ensures forall k :: k in filled <==> k in keys && Column(row, k) != ""
  {
    if keys == [] then []
    else (if Column(row, keys[0]) == "" then [] else [keys[0]]) + FilledKeys(row, keys[1..])
  }

  /** The metadata lines of a body: `- <key>: <value>` for each of Iteration,
      Priority, Labels in that order whose column is not blank. */
  function MetaLines(row: CsvRow): (lines: seq<string>)
    ensures |lines| <= 3
    ensures lines == [] <==> Column(row, "Iteration") == "" && Column(row, "Priority") == "" && Column(row, "Labels") == ""
  {
    MetaLine("Iteration", Column(row, "Iteration")) + MetaLine("Priority", Column(row, "Priority"))
    + MetaLine("Labels", Column(row, "Labels"))
  }

  /** The lines are `- <key>: <value>` for exactly the keys whose column is
      not blank, in the order Iteration, Priority, Labels. */
  lemma MetaLinesInOrder(row: CsvRow)
    ensures var lines, filled := MetaLines(row), FilledKeys(row, MetaKeys);
            && |lines| == |filled|
            && forall i :: 0 <= i < |lines| ==> lines[i] == "- " + filled[i] + ": " + Column(row, filled[i])
  {
    var keys := MetaKeys;
    assert keys[1..] == ["Priority", "Labels"] && keys[1..][1..] == ["Labels"] && keys[1..][1..][1..] == [];
    var f := [(if Column(row, "Iteration") == "" then [] else ["Iteration"]),
              (if Column(row, "Priority") == "" then [] else ["Priority"]),
              (if Column(row, "Labels") == "" then [] else ["Labels"])];
    assert FilledKeys(row, keys[1..][1..]) == f[2] + FilledKeys(row, []);
    assert FilledKeys(row, keys[1..]) == f[1] + FilledKeys(row, keys[1..][1..]);
    assert FilledKeys(row, MetaKeys) == f[0] + f[1] + f[2];
    var l := [MetaLine("Iteration", Column(row, "Iteration")), MetaLine("Priority", Column(row, "Priority")),
              MetaLine("Labels", Column(row, "Labels"))];
    assert LinesFor(l[0], f[0], row) && LinesFor(l[1], f[1], row) && LinesFor(l[2], f[2], row);
    LinesForAppend(l[0], f[0], l[1], f[1], row);
    LinesForAppend(l[0] + l[1], f[0] + f[1], l[2], f[2], row);
    assert MetaLines(row) == l[0] + l[1] + l[2];
  }

  /** `lines` are the metadata lines of `keys`, one for one. */
  predicate LinesFor(lines: seq<string>, keys: seq<string>, row: CsvRow) {
    |lines| == |keys| && forall i :: 0 <= i < |lines| ==> lines[i] == "- " + keys[i] + ": " + Column(row, keys[i])
  }

  lemma LinesForAppend(a: seq<string>, ka: seq<string>, b: seq<string>, kb: seq<string>, row: CsvRow)
    requires LinesFor(a, ka, row) && LinesFor(b, kb, row)
    ensures LinesFor(a + b, ka + kb, row)
  {
    forall i | 0 <= i < |a + b| ensures (a + b)[i] == "- " + (ka + kb)[i] + ": " + Column(row, (ka + kb)[i]) {
      if i >= |a| {
        assert (a + b)[i] == b[i - |a|] && (ka + kb)[i] == kb[i - |a|];
      }
    }
  }

  /** `- <key>: <value>`, or no line for a blank value. */
  function MetaLine(key: string, value: string): (r: seq<string>)
    ensures |r| <= 1 && (r == [] <==> value == "")
    ensures r != [] ==> r == ["- " + key + ": " + value]
  {
    if value == "" then [] else ["- " + key + ": " + value]
  }

  const MetaHeading := "Roadmap-Metadaten:"

  /** `build_body`: the stripped body, followed by a rule and the metadata
      lines when there are any. */
  function BuildBody(row: CsvRow): (body: string)
    ensures MetaLines(row) == [] ==> body == Column(row, "Body")
    ensures MetaLines(row) != [] ==> StartsWith(body, Column(row, "Body") + "\n\n---\n" + MetaHeading + "\n")
  {
    var meta := MetaLines(row);
    if meta == [] then Column(row, "Body")
    else Column(row, "Body") + "\n\n---\n" + MetaHeading + "\n" + Join(meta, "\n")
  }

  lemma JoinBody(body: string, meta: seq<string>)
    requires meta != []
    ensures body + "\n\n---\n" + MetaHeading + "\n" + Join(meta, "\n")
            == Join([body, "", "---", MetaHeading] + meta, "\n")
  {
    var parts := [body, "", "---", MetaHeading] + meta;
    assert parts[1..] == ["", "---", MetaHeading] + meta;
    assert parts[1..][1..] == ["---", MetaHeading] + meta;
    assert parts[1..][1..][1..] == [MetaHeading] + meta;
    assert parts[1..][1..][1..][1..] == meta;
    var tail := Join(meta, "\n");
    calc {
      Join(parts, "\n");
      body + "\n" + Join(parts[1..], "\n");
      body + "\n" + ("" + "\n" + Join(parts[1..][1..], "\n"));
      body + "\n" + ("" + "\n" + ("---" + "\n" + Join(parts[1..][1..][1..], "\n")));
      body + "\n" + ("" + "\n" + ("---" + "\n" + (MetaHeading + "\n" + tail)));
      body + "\n\n---\n" + MetaHeading + "\n" + tail;
    }
  }

  lemma MetaLineNoBreak(key: string, value: string)
    requires '\n' !in key && '\n' !in value
    ensures forall k :: 0 <= k < |MetaLine(key, value)| ==> '\n' !in MetaLine(key, value)[k]
  {
  }

  lemma MetaLinesNoBreak(row: CsvRow)
    requires '\n' !in Column(row, "Iteration") && '\n' !in Column(row, "Priority") && '\n' !in Column(row, "Labels")
    ensures forall k :: 0 <= k < |MetaLines(row)| ==> '\n' !in MetaLines(row)[k]
  {
    var a := MetaLine("Iteration", Column(row, "Iteration"));
    var b := MetaLine("Priority", Column(row, "Priority"));
    var c := MetaLine("Labels", Column(row, "Labels"));
    MetaLineNoBreak("Iteration", Column(row, "Iteration"));
    MetaLineNoBreak("Priority", Column(row, "Priority"));
    MetaLineNoBreak("Labels", Column(row, "Labels"));
    var lines := a + b + c;
    forall k | 0 <= k < |lines| ensures '\n' !in lines[k] {
      if k < |a| { assert lines[k] == a[k]; }
      else if k < |a| + |b| { assert lines[k] == b[k - |a|]; }
      else { assert lines[k] == c[k - |a| - |b|]; }
    }
  }

  /** When no cell holds a line break, the body's lines are the body text,
      then the rule, then exactly the metadata lines: nothing is lost or
      merged. */
  lemma BodyLines(row: CsvRow)
    requires '\n' !in Column(row, "Body") && '\n' !in Column(row, "Iteration")
    requires '\n' !in Column(row, "Priority") && '\n' !in Column(row, "Labels")
    ensures MetaLines(row) == [] ==> Split(BuildBody(row), '\n') == [Column(row, "Body")]
    ensures MetaLines(row) != [] ==>
              Split(BuildBody(row), '\n') == [Column(row, "Body"), "", "---", MetaHeading] + MetaLines(row)
  {
    var body, meta := Column(row, "Body"), MetaLines(row);
    MetaLinesNoBreak(row);
    if meta == [] {
      SplitJoin([body], '\n');
    } else {
      var parts := [body, "", "---", MetaHeading] + meta;
      JoinBody(body, meta);
      forall k | 0 <= k < |parts| ensures '\n' !in parts[k] {
        if k >= 4 { assert parts[k] == meta[k - 4]; }
      }
      SplitJoin(parts, '\n');
    }
  }

  // ------------------------------------------------------------------ fields

  /** An option of a single-select field; a missing name reads as "". */
  datatype SelectOption = SelectOption(id: Option<string>, name: string)

  /** A field of the project. A field without a name never matches. */
  datatype ProjectField = ProjectField(id: string, name: Option<string>, options: seq<SelectOption>)

  /** `find_field`: the first field with exactly this name. */
  function FindField(fields: seq<ProjectField>, name: string): (r: Option<ProjectField>)
    ensures r.None? <==> forall f :: f in fields ==> f.name != Some(name)
    ensures r.Some? ==> exists i :: 0 <= i < |fields| && fields[i] == r.value && r.value.name == Some(name)
                                   && forall j :: 0 <= j < i ==> fields[j].name != Some(name)
  {
    if fields == [] then None
    else if fields[0].name == Some(name) then Some(fields[0])
    else
      var r := FindField(fields[1..], name);
      assert fields == [fields[0]] + fields[1..];
      if r.Some? then
        var i :| 0 <= i < |fields[1..]| && fields[1..][i] == r.value && r.value.name == Some(name)
                 && forall j :: 0 <= j < i ==> fields[1..][j].name != Some(name);
        assert fields[i + 1] == r.value;
        assert forall j :: 0 <= j < i + 1 ==> fields[j].name != Some(name) by {
          forall j | 0 <= j < i + 1 ensures fields[j].name != Some(name) {
            if j > 0 { assert fields[j] == fields[1..][j - 1]; }
          }
        }
        r
      else r
  }

  /** An option answers to a wanted value when the names are equal or equal
      once normalized. */
  predicate Answers(option: SelectOption, wanted: string) {
    option.name == wanted || Normalize(option.name) == Normalize(wanted)
  }

  /** The option at `k` answers and none before it does. */
  predicate FirstAnswering(options: seq<SelectOption>, wanted: string, k: nat)
    requires k < |options|
  {
    Answers(options[k], wanted) && forall j :: 0 <= j < k ==> !Answers(options[j], wanted)
  }

  /** The id of the first option that answers to the wanted value. */
  function FirstAnswer(options: seq<SelectOption>, wanted: string): (r: Option<string>)
    ensures (forall o :: o in options ==> !Answers(o, wanted)) ==> r.None?
    ensures r.Some? ==> exists i :: 0 <= i < |options| && Answers(options[i], wanted) && options[i].id == r
    ensures forall k :: 0 <= k < |options| && FirstAnswering(options, wanted, k) ==> r == options[k].id
  {
    if options == [] then None
    else if Answers(options[0], wanted) then options[0].id
    else
      var r := FirstAnswer(options[1..], wanted);
      assert forall k :: 0 <= k < |options| && FirstAnswering(options, wanted, k) ==> r == options[k].id by {
        forall k | 0 <= k < |options| && FirstAnswering(options, wanted, k) ensures r == options[k].id {
          assert k != 0;
          assert options[1..][k - 1] == options[k];
          forall j | 0 <= j < k - 1 ensures !Answers(options[1..][j], wanted) {
            assert options[1..][j] == options[j + 1];
          }
          assert FirstAnswering(options[1..], wanted, k - 1);
        }
      }
      assert r.Some? ==> exists i :: 0 <= i < |options| && Answers(options[i], wanted) && options[i].id == r by {
        if r.Some? {
          var i :| 0 <= i < |options[1..]| && Answers(options[1..][i], wanted) && options[1..][i].id == r;
          assert options[i + 1] == options[1..][i];
        }
      }
      r
  }

  /** `option_id_for`: no options, or no option answering, gives `None`. */
  function OptionIdFor(field: ProjectField, wanted: string): (r: Option<string>)
    ensures field.options == [] ==> r.None?
    ensures r.Some? ==> exists o :: o in field.options && Answers(o, wanted) && o.id == r
    ensures forall k :: 0 <= k < |field.options| && FirstAnswering(field.options, wanted, k) ==> r == field.options[k].id
  {
    if field.options == [] then None else FirstAnswer(field.options, wanted)
  }

  /** Answering depends only on the normalized wanted value: the exact-name
      test never finds an option the normalized test would miss. */
  lemma AnswersByNormalForm(o: SelectOption, wanted: string)
    ensures Answers(o, wanted) <==> Normalize(o.name) == Normalize(wanted)
  {
  }

  /** Two values that normalize alike find the same option: case, blanks and
      punctuation in the CSV do not matter. */
  lemma {:induction false} OptionLookupIgnoresFormatting(options: seq<SelectOption>, a: string, b: string)
    requires Normalize(a) == Normalize(b)
    ensures FirstAnswer(options, a) == FirstAnswer(options, b)
  {
    if options != [] {
      AnswersByNormalForm(options[0], a);
      AnswersByNormalForm(options[0], b);
      OptionLookupIgnoresFormatting(options[1..], a, b);
    }
  }

  /** The field `ensure_single_select_field` settles on, and the changes made
      to the board on the way. */
  datatype Ensured = Ensured(field: Option<ProjectField>, edits: seq<Edit>)

  /** A change the script makes on the board. */
  datatype Edit =
    | CreateField(name: string, options: seq<string>)
    | CreateItem(title: string, body: string)
    | EditDraft(contentId: string, title: string, body: string)
    | SetOption(itemId: string, projectId: string, fieldId: string, optionId: string)

  /** The stand-in field a dry run uses: one option per value, whose id is the value. */
  function DryRunField(name: string, options: seq<string>): (f: ProjectField)
    ensures f.name == Some(name) && |f.options| == |options|
    ensures forall i :: 0 <= i < |options| ==> f.options[i] == SelectOption(Some(options[i]), options[i])
  {
    ProjectField("DRYRUN_" + name, Some(name), seq(|options|, i requires 0 <= i < |options| => SelectOption(Some(options[i]), options[i])))
  }

  /** `ensure_single_select_field`. `refreshed` is the field list the board
      returns after the field is created. */
  function EnsureField(fields: seq<ProjectField>, name: string, options: seq<string>, create: bool, dryRun: bool,
                       refreshed: seq<ProjectField>): (e: Ensured)
    ensures FindField(fields, name).Some? ==> e == Ensured(FindField(fields, name), [])
    ensures FindField(fields, name).None? && !create ==> e == Ensured(None, [])
    ensures FindField(fields, name).None? && create && dryRun ==> e == Ensured(Some(DryRunField(name, options)), [])
    ensures FindField(fields, name).None? && create && !dryRun ==>
              e == Ensured(FindField(refreshed, name), [CreateField(name, options)])
  {
    var existing := FindField(fields, name);
    if existing.Some? then Ensured(existing, [])
    else if !create then Ensured(None, [])
    else if dryRun then Ensured(Some(DryRunField(name, options)), [])
    else Ensured(FindField(refreshed, name), [CreateField(name, options)])
  }

  /** Every value the dry-run field was made with finds an option in it. */
  lemma DryRunFieldAnswers(name: string, options: seq<string>, k: nat)
    requires k < |options|
    ensures OptionIdFor(DryRunField(name, options), options[k]).Some?
  {
    var f := DryRunField(name, options);
    FirstAnswerFound(f.options, options[k], k);
  }

  lemma {:induction false} FirstAnswerFound(options: seq<SelectOption>, wanted: string, k: nat)
    requires k < |options| && Answers(options[k], wanted)
    requires forall o :: o in options ==> o.id.Some?
    ensures FirstAnswer(options, wanted).Some?
  {
    if k > 0 && !Answers(options[0], wanted) {
      FirstAnswerFound(options[1..], wanted, k - 1);
    }
  }

  // -------------------------------------------------------------------- sync

  /** An item already on the board; `contentId` is the id of its draft, if
      the board gave one. */
  datatype ProjectItem = ProjectItem(id: string, title: Option<string>, contentId: Option<string>)

  /** `by_title`: items by their non-empty title; a later item with the same
      title replaces an earlier one. */
  function ByTitle(items: seq<ProjectItem>): (m: map<string, ProjectItem>)
    ensures forall t :: t in m <==> t != "" && exists i :: 0 <= i < |items| && items[i].title == Some(t)
    ensures forall t :: t in m ==> m[t].title == Some(t) && m[t] in items
  {
    if items == [] then map[]
    else
      var init := items[..|items| - 1];
      var last := items[|items| - 1];
      var m := ByTitle(init);
      assert forall i :: 0 <= i < |init| ==> items[i] == init[i];
      if last.title.Some? && last.title.value != "" then m[last.title.value := last] else m
  }

  /** The last item with a title is the one `by_title` keeps. */
  lemma {:induction false} ByTitleLastWins(items: seq<ProjectItem>, k: nat)
    requires k < |items| && items[k].title.Some? && items[k].title.value != ""
    requires forall j :: k < j < |items| ==> items[j].title != items[k].title
    ensures ByTitle(items)[items[k].title.value] == items[k]
  {
    if k < |items| - 1 {
      ByTitleLastWins(items[..|items| - 1], k);
    }
  }

  /** What the loop needs besides the rows: the mode, the project, the three
      fields, and the ids the board gives to new items. */
  datatype Context = Context(dryRun: bool, projectId: string, status: ProjectField,
                             window: Option<ProjectField>, priority: Option<ProjectField>,
                             newItemId: string -> string)

  /** `set_single_select`: one edit, unless no option answers, its id is
      empty, or this is a dry run. */
  function Select(ctx: Context, itemId: string, field: ProjectField, value: string): (edits: seq<Edit>)
    ensures ctx.dryRun ==> edits == []
    ensures edits != [] ==> OptionIdFor(field, value).Some?
    ensures var option := OptionIdFor(field, value);
            edits == [] <==> ctx.dryRun || option.None? || option.value == ""
    ensures var option := OptionIdFor(field, value);
            !ctx.dryRun && option.Some? && option.value != "" ==>
              edits == [SetOption(itemId, ctx.projectId, field.id, option.value)]
  {
    var option := OptionIdFor(field, value);
    if option.None? || option.value == "" || ctx.dryRun then []
    else [SetOption(itemId, ctx.projectId, field.id, option.value)]
  }

  /** The status a row sets: "Todo" when the cell is missing or blank. */
  function StatusValue(row: CsvRow): (r: string)
    ensures r != ""
    ensures Column(row, "Status") != "" ==> r == Column(row, "Status")
    ensures Column(row, "Status") == "" ==> r == "Todo"
  {
    var raw := if "Status" in row && row["Status"] != "" then row["Status"] else "Todo";
    var s := Strip(raw);
    if s == "" then "Todo" else s
  }

  function Selections(ctx: Context, itemId: string, row: CsvRow): seq<Edit> {
    var window, priority := Column(row, "Iteration"), Column(row, "Priority");
    Select(ctx, itemId, ctx.status, StatusValue(row))
    + (if ctx.window.Some? && window != "" then Select(ctx, itemId, ctx.window.value, window) else [])
    + (if ctx.priority.Some? && priority != "" then Select(ctx, itemId, ctx.priority.value, priority) else [])
  }

  /** `normalize(title)[:16]`. */
  function DryRunItemId(title: string): string {
    var n := Normalize(title);
    "DRYRUN_" + (if |n| <= 16 then n else n[..16])
  }

  /** `content.get("id", "")` of an item. */
  function ContentId(item: ProjectItem): string {
    if item.contentId.Some? then item.contentId.value else ""
  }

  datatype SyncState = SyncState(byTitle: map<string, ProjectItem>, created: nat, updated: nat, edits: seq<Edit>)

  /** A titled row's item: created when the title is new, updated otherwise.
      Returns the state after the item and the item's id. */
  function Place(st: SyncState, title: string, body: string, ctx: Context): (SyncState, string) {
    if title !in st.byTitle then
      if ctx.dryRun then (st.(created := st.created + 1), DryRunItemId(title))
      else
        var id := ctx.newItemId(title);
        (SyncState(st.byTitle[title := ProjectItem(id, Some(title), None)], st.created + 1, st.updated,
                   st.edits + [CreateItem(title, body)]), id)
    else
      var existing := st.byTitle[title];
      var contentId := ContentId(existing);
      var draft := if !ctx.dryRun && StartsWith(contentId, "DI_") then [EditDraft(contentId, title, body)] else [];
      (st.(updated := st.updated + 1, edits := st.edits + draft), existing.id)
  }

  /** One pass of the loop in `main` over a row. */
  function SyncRow(st: SyncState, row: CsvRow, ctx: Context): SyncState {
    var title := Column(row, "Title");
    if title == "" then st
    else
      var placed := Place(st, title, BuildBody(row), ctx);
      placed.0.(edits := placed.0.edits + Selections(ctx, placed.1, row))
  }

  /** The loop over all rows. */
  function Sync(rows: seq<CsvRow>, st: SyncState, ctx: Context): SyncState {
    if rows == [] then st else SyncRow(Sync(rows[..|rows| - 1], st, ctx), rows[|rows| - 1], ctx)
  }

  /** The number of rows with a title. */
  function Titled(rows: seq<CsvRow>): (n: nat)
    ensures n <= |rows|
  {
    if rows == [] then 0 else Titled(rows[..|rows| - 1]) + (if Column(rows[|rows| - 1], "Title") == "" then 0 else 1)
  }

  /** The titles of the rows, blank ones left out. */
  function Titles(rows: seq<CsvRow>): set<string> {
    if rows == [] then {}
    else
      var t := Column(rows[|rows| - 1], "Title");
      Titles(rows[..|rows| - 1]) + (if t == "" then {} else {t})
  }

  /** The rows with a title the board did not have when the loop started. */
  function NewRows(rows: seq<CsvRow>, known: set<string>): (n: nat)
    ensures n <= Titled(rows)
  {
    if rows == [] then 0
    else
      var t := Column(rows[|rows| - 1], "Title");
      NewRows(rows[..|rows| - 1], known) + (if t == "" || t in known then 0 else 1)
  }

  /** What one row does to the counters and to `by_title`. */
  lemma SyncRowEffect(st: SyncState, row: CsvRow, ctx: Context)
    ensures var t, next := Column(row, "Title"), SyncRow(st, row, ctx);
            && (t == "" ==> next == st)
            && (t != "" && t !in st.byTitle ==>
                  && next.created == st.created + 1 && next.updated == st.updated
                  && next.byTitle.Keys == st.byTitle.Keys + (if ctx.dryRun then {} else {t}))
            && (t != "" && t in st.byTitle ==>
                  && next.created == st.created && next.updated == st.updated + 1
                  && next.byTitle == st.byTitle)
            && (ctx.dryRun ==> next.byTitle == st.byTitle && next.edits == st.edits)
  {
    var t := Column(row, "Title");
    if t != "" {
      var placed := Place(st, t, BuildBody(row), ctx);
      PlaceEffect(st, t, BuildBody(row), ctx);
      assert ctx.dryRun ==> Selections(ctx, placed.1, row) == [];
      assert SyncRow(st, row, ctx) == placed.0.(edits := placed.0.edits + Selections(ctx, placed.1, row));
    }
  }

  lemma PlaceEffect(st: SyncState, title: string, body: string, ctx: Context)
    ensures var next := Place(st, title, body, ctx).0;
            && (title !in st.byTitle ==>
                  && next.created == st.created + 1 && next.updated == st.updated
                  && next.byTitle.Keys == st.byTitle.Keys + (if ctx.dryRun then {} else {title}))
            && (title in st.byTitle ==>
                  && next.created == st.created && next.updated == st.updated + 1
                  && next.byTitle == st.byTitle)
            && (ctx.dryRun ==> next.byTitle == st.byTitle && next.edits == st.edits)
  {
  }

  /** Rows without a title are skipped, and every other row counts once,
      as created or as updated. */
  lemma {:induction false} SyncCounts(rows: seq<CsvRow>, st: SyncState, ctx: Context)
    ensures var end := Sync(rows, st, ctx); end.created + end.updated == st.created + st.updated + Titled(rows)
  {
    if rows != [] {
      SyncCounts(rows[..|rows| - 1], st, ctx);
      SyncRowEffect(Sync(rows[..|rows| - 1], st, ctx), rows[|rows| - 1], ctx);
    }
  }

  /** A dry run sends nothing to the board and keeps `by_title` as it was,
      so every row whose title is not on the board counts as created. */
  lemma {:induction false} DryRunChangesNothing(rows: seq<CsvRow>, st: SyncState, ctx: Context)
    requires ctx.dryRun
    ensures var end := Sync(rows, st, ctx);
            && end.edits == st.edits && end.byTitle == st.byTitle
            && end.created == st.created + NewRows(rows, st.byTitle.Keys)
  {
    if rows != [] {
      DryRunChangesNothing(rows[..|rows| - 1], st, ctx);
      SyncRowEffect(Sync(rows[..|rows| - 1], st, ctx), rows[|rows| - 1], ctx);
    }
  }

  lemma CardinalityStep(s: set<string>, t: string)
    requires t !in s
    ensures |s + {t}| == |s| + 1
  {
  }

  lemma NewTitleStep(known: set<string>, seen: set<string>, t: string)
    ensures t != "" && t !in known + seen ==> |(seen + {t}) - known| == |seen - known| + 1
    ensures t != "" && t in known + seen ==> (seen + {t}) - known == seen - known
  {
    if t != "" && t !in known + seen {
      assert (seen + {t}) - known == (seen - known) + {t};
      CardinalityStep(seen - known, t);
    }
  }

  lemma ApplyStep(prev: SyncState, row: CsvRow, ctx: Context, known: set<string>, seen: set<string>)
    requires !ctx.dryRun
    requires prev.byTitle.Keys == known + seen
    ensures var t, next := Column(row, "Title"), SyncRow(prev, row, ctx);
            var added: set<string> := if t == "" then {} else {t};
            && next.byTitle.Keys == known + (seen + added)
            && next.created + |seen - known| == prev.created + |(seen + added) - known|
  {
    SyncRowEffect(prev, row, ctx);
    NewTitleStep(known, seen, Column(row, "Title"));
  }

  /** Applied, a title is created at most once: a later row with the same
      title updates the item the earlier row created. */
  lemma {:induction false} ApplyCreatesEachTitleOnce(rows: seq<CsvRow>, st: SyncState, ctx: Context)
    requires !ctx.dryRun
    ensures var end := Sync(rows, st, ctx);
            && end.byTitle.Keys == st.byTitle.Keys + Titles(rows)
            && end.created == st.created + |Titles(rows) - st.byTitle.Keys|
  {
    if rows != [] {
      var init, last := rows[..|rows| - 1], rows[|rows| - 1];
      ApplyCreatesEachTitleOnce(init, st, ctx);
      ApplyStep(Sync(init, st, ctx), last, ctx, st.byTitle.Keys, Titles(init));
    }
  }

  /** The same new title on two rows: the dry run reports two items created,
      while applying creates one and then updates it. */
  lemma DryRunCountsRepeatedTitleTwice(ctx: Context)
    ensures var row := map["Title" := "A"];
            var start := SyncState(map[], 0, 0, []);
            && Sync([row, row], start, ctx.(dryRun := true)).created == 2
            && Sync([row, row], start, ctx.(dryRun := false)).created == 1
            && Sync([row, row], start, ctx.(dryRun := false)).updated == 1
  {
    var row: CsvRow := map["Title" := "A"];
    var start := SyncState(map[], 0, 0, []);
    assert Column(row, "Title") == "A";
    assert [row, row][..1] == [row];
    assert [row][..0] == [];
    var dry, apply := ctx.(dryRun := true), ctx.(dryRun := false);
    assert Sync([row], start, dry) == SyncRow(start, row, dry);
    assert Sync([row, row], start, dry) == SyncRow(Sync([row], start, dry), row, dry);
    assert Sync([row], start, apply) == SyncRow(start, row, apply);
    assert Sync([row, row], start, apply) == SyncRow(Sync([row], start, apply), row, apply);
    SyncRowEffect(start, row, dry);
    SyncRowEffect(SyncRow(start, row, dry), row, dry);
    SyncRowEffect(start, row, apply);
    SyncRowEffect(SyncRow(start, row, apply), row, apply);
  }

  /** Appends one row to the loop. */
  lemma SyncStep(rows: seq<CsvRow>, i: nat, st: SyncState, ctx: Context)
    requires i < |rows|
    ensures Sync(rows[..i + 1], st, ctx) == SyncRow(Sync(rows[..i], st, ctx), rows[i], ctx)
  {
    assert rows[..i + 1][..i] == rows[..i];
  }

  /** The item for a titled row: created when `by_title` does not know the
      title, updated otherwise (source lines 219-267). */
  method PlaceItem(st: SyncState, title: string, body: string, ctx: Context)
    returns (next: SyncState, itemId: string)
    ensures (next, itemId) == Place(st, title, body, ctx)
  {
    var byTitle, created, updated, edits := st.byTitle, st.created, st.updated, st.edits;
    if title !in byTitle {
      if ctx.dryRun {
        itemId := DryRunItemId(title);
      } else {
        itemId := ctx.newItemId(title);
        edits := edits + [CreateItem(title, body)];
        byTitle := byTitle[title := ProjectItem(itemId, Some(title), None)];
      }
      created := created + 1;
    } else {
      var existing := byTitle[title];
      itemId := existing.id;
      assert edits + [] == edits;
      if !ctx.dryRun {
        var contentId := ContentId(existing);
        if StartsWith(contentId, "DI_") {
          edits := edits + [EditDraft(contentId, title, body)];
        }
      }
      updated := updated + 1;
    }
    next := SyncState(byTitle, created, updated, edits);
  }

  /** The loop of `main`: `created` and `updated` counters, the `by_title`
      dictionary, and the edits in the order they are made. */
  method SyncItems(rows: seq<CsvRow>, items: seq<ProjectItem>, ctx: Context)
    returns (created: nat, updated: nat, edits: seq<Edit>)
    ensures var end := Sync(rows, SyncState(ByTitle(items), 0, 0, []), ctx);
            created == end.created && updated == end.updated && edits == end.edits
  {
    var start := SyncState(ByTitle(items), 0, 0, []);
    var st := start;
    var i := 0;
    while i < |rows|
      invariant 0 <= i <= |rows|
      invariant st == Sync(rows[..i], start, ctx)
    {
      SyncStep(rows, i, start, ctx);
      var row := rows[i];
      i := i + 1;
      var title := Column(row, "Title");
      if title == "" {
        continue;
      }
      var body := BuildBody(row);
      var itemId;
      st, itemId := PlaceItem(st, title, body, ctx);
      st := st.(edits := st.edits + Selections(ctx, itemId, row));
    }
    assert rows[..i] == rows;
    created, updated, edits := st.created, st.updated, st.edits;
  }

  // -------------------------------------------------------------------- main

  const DefaultWindowOptions := ["Bereits umgesetzt", "0-30 Tage", "31-60 Tage", "61-90 Tage"]
  const DefaultPriorityOptions := ["P0", "P1", "P2", "P3"]

  /** The command line: `--apply`, `--dry-run`, `--create-fields` and the
      three field names. */
  datatype SyncArgs = SyncArgs(apply: bool, dryRunFlag: bool, createFields: bool,
                               statusField: string, windowField: string, priorityField: string)

  /** The summary `main` prints. */
  datatype SyncSummary = SyncSummary(csvRows: nat, created: nat, updated: nat, dryRun: bool)

  /** Dry run unless `--apply` is given without `--dry-run`. */
  function DryRunMode(args: SyncArgs): (dry: bool)
    ensures !dry <==> args.apply && !args.dryRunFlag
  {
    args.dryRunFlag || !args.apply
  }

  /** The two optional fields, each found or, when asked, created. */
  function WindowField(args: SyncArgs, fields: seq<ProjectField>, refreshed: string -> seq<ProjectField>): Ensured {
    EnsureField(fields, args.windowField, DefaultWindowOptions, args.createFields, DryRunMode(args),
                refreshed(args.windowField))
  }

  function PriorityField(args: SyncArgs, fields: seq<ProjectField>, refreshed: string -> seq<ProjectField>): Ensured {
    EnsureField(fields, args.priorityField, DefaultPriorityOptions, args.createFields, DryRunMode(args),
                refreshed(args.priorityField))
  }

  /** The field creations that precede the item loop. */
  function FieldEdits(args: SyncArgs, fields: seq<ProjectField>, refreshed: string -> seq<ProjectField>): seq<Edit> {
    WindowField(args, fields, refreshed).edits + PriorityField(args, fields, refreshed).edits
  }

  /** The context the item loop runs in. */
  function SyncContext(args: SyncArgs, fields: seq<ProjectField>, refreshed: string -> seq<ProjectField>,
                       projectId: string, newItemId: string -> string, status: ProjectField): Context {
    Context(DryRunMode(args), projectId, status, WindowField(args, fields, refreshed).field,
            PriorityField(args, fields, refreshed).field, newItemId)
  }

  /** `main` after the board has been read. `fields` is the project's field
      list, `refreshed` the list the board returns after a field of that name
      is created, `items` the items already on the board. No rows: nothing
      happens. A missing status field: the run stops before any change.
      Otherwise the summary counts every titled row once, and a dry run
      changes nothing on the board. */
  method RunSync(args: SyncArgs, rows: seq<CsvRow>, fields: seq<ProjectField>,
                 refreshed: string -> seq<ProjectField>, items: seq<ProjectItem>,
                 projectId: string, newItemId: string -> string)
    returns (r: Result<Option<SyncSummary>>, edits: seq<Edit>)
    ensures rows == [] ==> r == Ok(None) && edits == []
    ensures rows != [] && FindField(fields, args.statusField).None? ==>
              r == Err("Required field '" + args.statusField + "' not found in project.") && edits == []
    ensures rows != [] && FindField(fields, args.statusField).Some? ==>
              && r.Ok? && r.value.Some?
              && r.value.value.csvRows == |rows| && r.value.value.dryRun == DryRunMode(args)
              && r.value.value.created + r.value.value.updated == Titled(rows)
    ensures rows != [] && FindField(fields, args.statusField).Some? ==>
              var ctx := SyncContext(args, fields, refreshed, projectId, newItemId,
                                     FindField(fields, args.statusField).value);
              var end := Sync(rows, SyncState(ByTitle(items), 0, 0, []), ctx);
              && r.Ok? && r.value.Some?
              && r.value.value.created == end.created && r.value.value.updated == end.updated
              && edits == FieldEdits(args, fields, refreshed) + end.edits
              && (!DryRunMode(args) ==> r.value.value.created == |Titles(rows) - ByTitle(items).Keys|)
              && (DryRunMode(args) ==> r.value.value.created == NewRows(rows, ByTitle(items).Keys))
    ensures DryRunMode(args) ==> edits == []
  {
    var dryRun := DryRunMode(args);
    if rows == [] {
      return Ok(None), [];
    }
    var status := FindField(fields, args.statusField);
    if status.None? {
      return Err("Required field '" + args.statusField + "' not found in project."), [];
    }
    var window := EnsureField(fields, args.windowField, DefaultWindowOptions, args.createFields, dryRun,
                              refreshed(args.windowField));
    var priority := EnsureField(fields, args.priorityField, DefaultPriorityOptions, args.createFields, dryRun,
                                refreshed(args.priorityField));
    var ctx := Context(dryRun, projectId, status.value, window.field, priority.field, newItemId);
    var created, updated, loopEdits := SyncItems(rows, items, ctx);
    SyncCounts(rows, SyncState(ByTitle(items), 0, 0, []), ctx);
    if dryRun {
      DryRunChangesNothing(rows, SyncState(ByTitle(items), 0, 0, []), ctx);
    } else {
      ApplyCreatesEachTitleOnce(rows, SyncState(ByTitle(items), 0, 0, []), ctx);
    }
    edits := window.edits + priority.edits + loopEdits;
    r := Ok(Some(SyncSummary(|rows|, created, updated, dryRun)));
  }
}
