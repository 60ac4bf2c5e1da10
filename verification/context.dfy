/** Prompt assembly (`rag.py`): the context text built from the retrieved
    payloads grouped by `document_name`, the prompt, and the message list sent
    to the chat model. */
module Context {
  import opened Wrappers
  import opened Seqs
  import opened Text
  import opened Values

  const MaxHistory := 4
  const RuleWidth := 60

  /** `circular.get("document_name", 'N/A')` */
  function DocName(r: Record): Value
  {
    GetOr(r, "document_name", Str("N/A"))
  }

  /** `page.get('content', '')` must be a string for `.strip()`. */
  predicate ContentOk(r: Record)
  {
    "content" !in r || r["content"].Str?
  }

  /** `page.get('content', '').strip()` where `ContentOk` holds. */
  function PageContent(r: Record): string
  {
    match GetOr(r, "content", Str(""))
    case Str(s) => Strip(s)
    case _ => ""
  }

  /** A metadata line, present only when the field is truthy. */
  function MetaLine(first: Record, key: string, lead: string): (l: string)
    ensures Truthy(GetOr(first, key, Null)) ==> l == lead + PyStr(first[key]) + "\n"
    ensures !Truthy(GetOr(first, key, Null)) ==> l == ""
  {
    if Truthy(GetOr(first, key, Null)) then lead + PyStr(GetOr(first, key, Str("N/A"))) + "\n" else ""
  }

  /** The Subject, Date and File Link lines, taken from the group's first page. */
  function MetaLines(pages: seq<Record>): string
  {
    if |pages| == 0 then ""
    else MetaLine(pages[0], "sub", "Subject: ") + MetaLine(pages[0], "cirDisplayDate", "Date: ")
         + MetaLine(pages[0], "circFilelink", "File Link: ")
  }

  /** `[Page k]` on a line of its own, preceded by an empty line. */
  function Marker(num: nat): string
  {
    "\n[Page " + NatToString(num) + "]\n"
  }

  /** One page's contribution: nothing for blank content, else the optional marker, the content and a newline. */
  function PageLine(c: string, num: nat, marked: bool): string
  {
    if |c| == 0 then "" else (if marked then Marker(num) else "") + c + "\n"
  }

  /** The pages from position `num` (counted from 1) on; blank pages are skipped
      but still counted, and markers appear only when `marked`. */
  function PagesText(cs: seq<string>, num: nat, marked: bool): string
  {
    if |cs| == 0 then "" else PageLine(cs[0], num, marked) + PagesText(cs[1..], num + 1, marked)
  }

  /** The stripped contents of the pages, in order. */
  function Contents(pages: seq<Record>): (cs: seq<string>)
    ensures |cs| == |pages| && forall i :: 0 <= i < |pages| ==> cs[i] == PageContent(pages[i])
  {
    seq(|pages|, i requires 0 <= i < |pages| => PageContent(pages[i]))
  }

  function Rule(): (r: string)
    ensures |r| == 60 && forall i :: 0 <= i < |r| ==> r[i] == '='
  {
    Repeat('=', RuleWidth)
  }

  function Header(idx: nat, name: Value): string
  {
    "=== CIRCULAR " + NatToString(idx) + ": " + PyStr(name) + " ===\n\n"
  }

  function Footer(): string
  {
    "\n" + Rule() + "\n\n"
  }

  /** Metadata, the `Content:` line and the pages; a group of one page carries no markers. */
  function Body(pages: seq<Record>): string
  {
    MetaLines(pages) + "\nContent:\n" + PagesText(Contents(pages), 1, |pages| > 1)
  }

  /** One document block: header, metadata, content, separator of sixty `=`. */
  function Block(idx: nat, name: Value, pages: seq<Record>): string
  {
    Header(idx, name) + Body(pages) + Footer()
  }

  /** A block opens with its numbered header and closes with the separator line. */
  lemma BlockFrame(idx: nat, name: Value, pages: seq<Record>)
    ensures Header(idx, name) <= Block(idx, name, pages)
    ensures EndsWith(Block(idx, name, pages), Footer())
  {
    var b := Block(idx, name, pages);
    assert b[..|Header(idx, name)|] == Header(idx, name);
    assert b[|b| - |Footer()|..] == Footer();
  }

  /** Block number `n` for the group named `k`: the pages of `s` with that name. */
  function BlockOf(s: seq<Record>): (nat, Value) -> string
  {
    (n: nat, k: Value) => Block(n, k, WithKey(s, DocName, k))
  }

  /** The blocks for the group names `ks`, numbered from `idx`. */
  function Blocks(s: seq<Record>, ks: seq<Value>, idx: nat): string
  {
    Numbered(ks, idx, BlockOf(s))
  }

  /** `f(idx, ks[0]) + f(idx + 1, ks[1]) + ...`, the shape of an `enumerate` loop. */
  function Numbered<K>(ks: seq<K>, idx: nat, f: (nat, K) -> string): string
  {
    if |ks| == 0 then "" else f(idx, ks[0]) + Numbered(ks[1..], idx + 1, f)
  }

  /** The context text, or the error `.strip()` raises on a non-string content. */
  function BuildContext(s: seq<Record>): (r: Result<string>)
    ensures r.Ok? <==> forall i :: 0 <= i < |s| ==> ContentOk(s[i])
    ensures r.Err? ==> r.error == WrongType("content")
  {
    if exists i :: 0 <= i < |s| && !ContentOk(s[i]) then Err(WrongType("content"))
    else Ok(Blocks(s, FirstKeys(s, DocName), 1))
  }

  lemma {:induction false} NumberedAppend<K>(a: seq<K>, b: seq<K>, idx: nat, f: (nat, K) -> string)
    ensures Numbered(a + b, idx, f) == Numbered(a, idx, f) + Numbered(b, idx + |a|, f)
  {
    if |a| == 0 {
      assert a + b == b;
    } else {
      assert (a + b)[1..] == a[1..] + b;
      NumberedAppend(a[1..], b, idx + 1, f);
    }
  }

  lemma NumberedAt<K>(ks: seq<K>, idx: nat, f: (nat, K) -> string, k: nat)
    requires k < |ks|
    ensures Numbered(ks, idx, f) == Numbered(ks[..k], idx, f) + f(idx + k, ks[k]) + Numbered(ks[k + 1..], idx + k + 1, f)
  {
    var a, t := ks[..k], ks[k + 1..];
    var b := [ks[k]] + t;
    SplitAround(ks, k);
    NumberedAppend(a, b, idx, f);
    assert b[0] == ks[k] && b[1..] == t;
    assert Numbered(b, idx + k, f) == f(idx + k, ks[k]) + Numbered(t, idx + k + 1, f);
  }

  /** The `k`-th group (from 0) is rendered as block number `idx + k`, holding all
      the group's pages in input order, between the earlier blocks and the later ones. */
  lemma BlocksAt(s: seq<Record>, ks: seq<Value>, idx: nat, k: nat)
    requires k < |ks|
    ensures Blocks(s, ks, idx)
         == Blocks(s, ks[..k], idx) + Block(idx + k, ks[k], WithKey(s, DocName, ks[k])) + Blocks(s, ks[k + 1..], idx + k + 1)
  {
    NumberedAt(ks, idx, BlockOf(s), k);
  }

  lemma PageLineHas(c: string, num: nat, marked: bool)
    requires |c| > 0
    ensures IsSubstring(c, PageLine(c, num, marked))
  {
    var m := if marked then Marker(num) else "";
    var l := m + c + "\n";
    assert l[|m|..|m| + |c|] == c;
    SubstringAt(c, l, |m|);
  }

  /** A page with non-blank content appears, stripped, in its block's text. */
  lemma {:induction false} PagesTextHas(cs: seq<string>, num: nat, marked: bool, j: nat)
    requires j < |cs| && |cs[j]| > 0
    ensures IsSubstring(cs[j], PagesText(cs, num, marked))
  {
    var head := PageLine(cs[0], num, marked);
    var rest := PagesText(cs[1..], num + 1, marked);
    if j == 0 {
      PageLineHas(cs[0], num, marked);
      SubstringExtend(cs[0], head, rest);
    } else {
      PagesTextHas(cs[1..], num + 1, marked, j - 1);
      assert cs[1..][j - 1] == cs[j];
      SubstringShift(cs[j], head, rest);
    }
  }

  lemma {:induction false} SubstringShift(p: string, a: string, b: string)
    requires IsSubstring(p, b)
    ensures IsSubstring(p, a + b)
  {
    if |a| > 0 {
      SubstringShift(p, a[1..], b);
      assert (a + b)[1..] == a[1..] + b;
    } else {
      assert a + b == b;
    }
  }

  lemma SubstringMiddle(p: string, a: string, b: string, c: string)
    requires IsSubstring(p, b)
    ensures IsSubstring(p, a + b + c)
  {
    SubstringShift(p, a, b);
    SubstringExtend(p, a + b, c);
  }

  lemma BuildContextValue(s: seq<Record>)
    requires BuildContext(s).Ok?
    ensures BuildContext(s).value == Blocks(s, FirstKeys(s, DocName), 1)
  {
  }

  lemma BlockHasPage(idx: nat, name: Value, group: seq<Record>, j: nat)
    requires j < |group| && |PageContent(group[j])| > 0
    ensures IsSubstring(PageContent(group[j]), Block(idx, name, group))
  {
    var p := PageContent(group[j]);
    var meta := MetaLines(group) + "\nContent:\n";
    var pages := PagesText(Contents(group), 1, |group| > 1);
    PagesTextHas(Contents(group), 1, |group| > 1, j);
    SubstringShift(p, meta, pages);
    assert meta + pages == Body(group);
    SubstringMiddle(p, Header(idx, name), Body(group), Footer());
  }

  lemma BlocksKeepContent(s: seq<Record>, ks: seq<Value>, i: nat)
    requires i < |s| && |PageContent(s[i])| > 0 && DocName(s[i]) in ks
    ensures IsSubstring(PageContent(s[i]), Blocks(s, ks, 1))
  {
    var k := IndexIn(ks, DocName(s[i]));
    PageInBlock(s, i, 1 + k);
    NumberedHas(ks, 1, BlockOf(s), k, PageContent(s[i]));
  }

  /** A page with non-blank content is in the block of its group, whatever its number. */
  lemma PageInBlock(s: seq<Record>, i: nat, n: nat)
    requires i < |s| && |PageContent(s[i])| > 0
    ensures IsSubstring(PageContent(s[i]), BlockOf(s)(n, DocName(s[i])))
  {
    var j := WithKeyIndex(s, DocName, DocName(s[i]), i);
    BlockHasPage(n, DocName(s[i]), WithKey(s, DocName, DocName(s[i])), j);
  }

  /** Text found in one numbered part is found in the whole. */
  lemma NumberedHas<K>(ks: seq<K>, idx: nat, f: (nat, K) -> string, k: nat, p: string)
    requires k < |ks| && IsSubstring(p, f(idx + k, ks[k]))
    ensures IsSubstring(p, Numbered(ks, idx, f))
  {
    NumberedAt(ks, idx, f, k);
    SubstringMiddle(p, Numbered(ks[..k], idx, f), f(idx + k, ks[k]), Numbered(ks[k + 1..], idx + k + 1, f));
  }

  /** Nothing retrieved is lost: every page with non-blank content has that
      content, stripped, somewhere in the context. */
  lemma ContextKeepsContent(s: seq<Record>, i: nat)
    requires i < |s| && |PageContent(s[i])| > 0
    requires BuildContext(s).Ok?
    ensures IsSubstring(PageContent(s[i]), BuildContext(s).value)
  {
    BuildContextValue(s);
    BlocksKeepContent(s, FirstKeys(s, DocName), i);
  }

  /** Where an element of `s` with key `k` sits among `WithKey(s, key, k)`. */
  lemma {:induction false} WithKeyIndex<T, K>(s: seq<T>, key: T -> K, k: K, i: nat) returns (j: nat)
    requires i < |s| && key(s[i]) == k
    ensures j < |WithKey(s, key, k)| && WithKey(s, key, k)[j] == s[i]
  {
    if i == 0 {
      j := 0;
    } else {
      var j' := WithKeyIndex(s[1..], key, k, i - 1);
      j := if key(s[0]) == k then j' + 1 else j';
    }
  }

  lemma {:induction false} DedupOneKey<T, K>(s: seq<T>, key: T -> K, k: K)
    requires |s| > 0 && forall i :: 0 <= i < |s| ==> key(s[i]) == k
    ensures Dedup(s, key) == [s[0]]
  {
    var init := s[..|s| - 1];
    if |init| > 0 {
      DedupOneKey(init, key, k);
      assert key(init[0]) in KeySet(init, key);
    }
  }

  lemma OnlyNameNA(s: seq<Record>)
    requires |s| > 0 && forall i :: 0 <= i < |s| ==> DocName(s[i]) == Str("N/A")
    ensures FirstKeys(s, DocName) == [Str("N/A")]
  {
    DedupOneKey(s, DocName, Str("N/A"));
  }

  /** When no retrieved payload carries `document_name` (no code path adds it),
      everything lands in one block named `N/A`, all pages in retrieval order. */
  lemma OneBlockWithoutNames(s: seq<Record>)
    requires |s| > 0
    requires forall i :: 0 <= i < |s| ==> "document_name" !in s[i]
    requires BuildContext(s).Ok?
    ensures BuildContext(s).value == Block(1, Str("N/A"), s)
  {
    assert forall i :: 0 <= i < |s| ==> DocName(s[i]) == Str("N/A");
    OnlyNameNA(s);
    BuildContextValue(s);
    WithKeyAll(s, DocName, Str("N/A"));
    var f := BlockOf(s);
    assert Numbered([Str("N/A")], 1, f) == f(1, Str("N/A")) + Numbered([], 2, f);
  }

  lemma {:induction false} WithKeyAll<T, K>(s: seq<T>, key: T -> K, k: K)
    requires forall i :: 0 <= i < |s| ==> key(s[i]) == k
    ensures WithKey(s, key, k) == s
  {
    if |s| > 0 {
      WithKeyAll(s[1..], key, k);
      assert s == [s[0]] + s[1..];
    }
  }

  /** The body opens with the `Subject:` line exactly when the group's first
      page has a truthy `sub`; the other openings start with `D`, `F` or a line break. */
  lemma SubjectLine(pages: seq<Record>)
    ensures ("Subject: " <= Body(pages)) <==> (|pages| > 0 && Truthy(GetOr(pages[0], "sub", Null)))
    ensures |pages| > 0 && Truthy(GetOr(pages[0], "sub", Null)) ==>
              "Subject: " + PyStr(pages[0]["sub"]) + "\n" <= Body(pages)
  {
    var rest := "\nContent:\n" + PagesText(Contents(pages), 1, |pages| > 1);
    assert rest[0] == '\n';
    if |pages| == 0 {
      BodyParts(pages);
      Opening("", "", "", rest);
    } else {
      var first := pages[0];
      var sub := MetaLine(first, "sub", "Subject: ");
      var date := MetaLine(first, "cirDisplayDate", "Date: ");
      var link := MetaLine(first, "circFilelink", "File Link: ");
      MetaLineStart(first, "cirDisplayDate", "Date: ");
      MetaLineStart(first, "circFilelink", "File Link: ");
      if Truthy(GetOr(first, "sub", Null)) {
        PrefixOf("Subject: ", PyStr(first["sub"]) + "\n");
      }
      BodyOpening(pages);
      Opening(sub, date, link, rest);
    }
  }

  lemma BodyOpening(pages: seq<Record>)
    requires |pages| > 0
    ensures Body(pages) == MetaLine(pages[0], "sub", "Subject: ") + MetaLine(pages[0], "cirDisplayDate", "Date: ")
                           + MetaLine(pages[0], "circFilelink", "File Link: ") + ("\nContent:\n" + PagesText(Contents(pages), 1, |pages| > 1))
  {
    BodyParts(pages);
  }

  lemma PrefixOf(p: string, b: string)
    ensures p <= p + b
  {
    assert (p + b)[..|p|] == p;
  }

  /** A metadata line is empty or starts with its lead. */
  lemma MetaLineStart(first: Record, key: string, lead: string)
    requires |lead| > 0
    ensures var l := MetaLine(first, key, lead);
      (l == "") == !Truthy(GetOr(first, key, Null)) && (l != "" ==> l[0] == lead[0])
  {
  }

  /** The opening of a body, from its three optional metadata lines on. */
  lemma Opening(sub: string, date: string, link: string, rest: string)
    requires sub == "" || "Subject: " <= sub
    requires date == "" || date[0] == 'D'
    requires link == "" || link[0] == 'F'
    requires |rest| > 0 && rest[0] == '\n'
    ensures ("Subject: " <= sub + date + link + rest) <==> sub != ""
    ensures sub <= sub + date + link + rest
  {
    var t := sub + date + link + rest;
    assert t == sub + (date + link + rest);
    assert t[..|sub|] == sub;
    if sub == "" {
      assert t[0] == 'D' || t[0] == 'F' || t[0] == '\n' by {
        if date != "" { assert t[0] == date[0]; }
        else if link != "" { assert t[0] == link[0]; }
        else { assert t == rest; }
      }
    } else {
      assert t[..9] == sub[..9];
    }
  }

  lemma BodyParts(pages: seq<Record>)
    ensures Body(pages) == MetaLines(pages) + ("\nContent:\n" + PagesText(Contents(pages), 1, |pages| > 1))
  {
    ConcatAssoc(MetaLines(pages), "\nContent:\n", PagesText(Contents(pages), 1, |pages| > 1));
  }


  lemma ContentsOne(p: Record)
    ensures Contents([p]) == [PageContent(p)]
  {
  }

  /** The content part of a one-page group: no marker, and nothing for a blank page. */
  lemma OnePageText(c: string)
    ensures PagesText([c], 1, false) == if c == "" then "" else c + "\n"
  {
    assert [c][1..] == [];
  }

  /** A block is its header, its body's metadata and content, and the footer. */
  lemma BlockOfPages(idx: nat, name: Value, pages: seq<Record>)
    ensures Block(idx, name, pages)
         == Header(idx, name) + MetaLines(pages) + "\nContent:\n" + PagesText(Contents(pages), 1, |pages| > 1) + Footer()
  {
    BlockConcat(Header(idx, name), Body(pages), Footer(), MetaLines(pages), PagesText(Contents(pages), 1, |pages| > 1));
  }

  lemma BlockConcat(h: string, b: string, ft: string, ml: string, x: string)
    requires b == ml + "\nContent:\n" + x
    ensures h + b + ft == h + ml + "\nContent:\n" + x + ft
  {
  }

  /** A group of one page gets no `[Page k]` marker: its content part is its
      stripped text and a line break, or nothing when that text is blank. */
  lemma SinglePageBlock(idx: nat, name: Value, p: Record)
    ensures Block(idx, name, [p])
         == Header(idx, name) + MetaLines([p]) + "\nContent:\n"
            + (if PageContent(p) == "" then "" else PageContent(p) + "\n") + Footer()
  {
    BlockOfPages(idx, name, [p]);
    ContentsOne(p);
    OnePageText(PageContent(p));
  }

  /** Removing a blank line from the page texts: the pages after it keep their numbers. */
  lemma {:induction false} BlankLine(cs: seq<string>, num: nat, marked: bool, j: nat)
    requires j < |cs| && cs[j] == ""
    ensures PagesText(cs, num, marked) == PagesText(cs[..j], num, marked) + PagesText(cs[j + 1..], num + j + 1, marked)
  {
    if j == 0 {
      assert cs[..0] == [];
    } else {
      var t := cs[1..];
      var h, a, b := PageLine(cs[0], num, marked), PagesText(t[..j - 1], num + 1, marked), PagesText(cs[j + 1..], num + j + 1, marked);
      BlankLine(t, num + 1, marked, j - 1);
      assert t[j - 1 + 1..] == cs[j + 1..] && num + 1 + (j - 1) + 1 == num + j + 1;
      assert PagesText(t, num + 1, marked) == a + b;
      assert PagesText(cs, num, marked) == h + (a + b);
      assert cs[..j][0] == cs[0] && cs[..j][1..] == t[..j - 1];
      assert PagesText(cs[..j], num, marked) == h + a;
      ConcatAssoc(h, a, b);
    }
  }

  lemma ConcatAssoc(a: string, b: string, c: string)
    ensures a + (b + c) == a + b + c
  {
  }

  /** A blank page adds nothing to its block, yet the pages after it keep their numbers. */
  lemma BlankPageAddsNothing(idx: nat, name: Value, pages: seq<Record>, j: nat)
    requires j < |pages| && PageContent(pages[j]) == ""
    ensures Block(idx, name, pages)
         == Header(idx, name) + MetaLines(pages) + "\nContent:\n"
            + (PagesText(Contents(pages)[..j], 1, |pages| > 1) + PagesText(Contents(pages)[j + 1..], j + 2, |pages| > 1))
            + Footer()
  {
    BlockOfPages(idx, name, pages);
    BlankLine(Contents(pages), 1, |pages| > 1, j);
  }

  /** With markers on, a non-blank text sits under the marker of its number. */
  lemma {:induction false} MarkedLine(cs: seq<string>, num: nat, j: nat)
    requires j < |cs| && cs[j] != ""
    ensures IsSubstring(Marker(num + j) + cs[j] + "\n", PagesText(cs, num, true))
  {
    var head := PageLine(cs[0], num, true);
    var rest := PagesText(cs[1..], num + 1, true);
    if j == 0 {
      SubstringSelf(head);
      SubstringExtend(head, head, rest);
    } else {
      MarkedLine(cs[1..], num + 1, j - 1);
      assert cs[1..][j - 1] == cs[j];
      SubstringShift(Marker(num + j) + cs[j] + "\n", head, rest);
    }
  }

  /** In a group of several pages, a page with text appears under its own
      `[Page k]` marker, `k` being its position in the group counted from 1. */
  lemma MarkedPageInBlock(idx: nat, name: Value, pages: seq<Record>, j: nat)
    requires |pages| > 1 && j < |pages| && PageContent(pages[j]) != ""
    ensures IsSubstring("\n[Page " + NatToString(j + 1) + "]\n" + PageContent(pages[j]) + "\n", Block(idx, name, pages))
  {
    var line := Marker(1 + j) + PageContent(pages[j]) + "\n";
    MarkedLine(Contents(pages), 1, j);
    BlockOfPages(idx, name, pages);
    SubstringMiddle(line, Header(idx, name) + MetaLines(pages) + "\nContent:\n", PagesText(Contents(pages), 1, true), Footer());
  }

  // ------------------------------------------------------------------ prompt

  /** The instruction template around the two placeholders: `head{context}mid{query}tail`. */
  datatype Template = Template(head: string, mid: string, tail: string)

  /** `prompt_template.format(query=..., context=...).strip()` */
  function BuildPrompt(t: Template, query: string, context: string): string
  {
    Strip(t.head + context + t.mid + query + t.tail)
  }

  lemma SubstringSelf(p: string)
    ensures IsSubstring(p, p)
  {
    assert p <= p;
  }

  lemma FilledHasParts(head: string, context: string, mid: string, query: string, tail: string)
    ensures IsSubstring(context, head + context + mid + query + tail)
    ensures IsSubstring(query, head + context + mid + query + tail)
  {
    SubstringSelf(context);
    SubstringSelf(query);
    SubstringMiddle(context, head, context, mid + query + tail);
    assert head + context + mid + query + tail == head + context + (mid + query + tail);
    SubstringMiddle(query, head + context + mid, query, tail);
  }

  /** A template that starts and ends with visible text keeps the context and
      the question verbatim in the prompt. */
  lemma PromptKeepsParts(t: Template, query: string, context: string)
    requires |t.head| > 0 && !IsSpace(t.head[0])
    requires |t.tail| > 0 && !IsSpace(t.tail[|t.tail| - 1])
    ensures BuildPrompt(t, query, context) == t.head + context + t.mid + query + t.tail
    ensures IsSubstring(context, BuildPrompt(t, query, context))
    ensures IsSubstring(query, BuildPrompt(t, query, context))
  {
    var full := t.head + context + t.mid + query + t.tail;
    assert full[0] == t.head[0];
    assert full[|full| - 1] == t.tail[|t.tail| - 1];
    StripFramed(full);
    FilledHasParts(t.head, context, t.mid, query, t.tail);
  }

  // ---------------------------------------------------------------- messages

  datatype Message = Message(role: string, content: string)

  /** `chat_history[-4:]` followed by the user's prompt. */
  function Messages(history: seq<Message>, prompt: string): (ms: seq<Message>)
    ensures |ms| == (if |history| < MaxHistory then |history| else MaxHistory) + 1
    ensures ms[|ms| - 1] == Message("user", prompt)
    ensures history == history[..|history| - (|ms| - 1)] + ms[..|ms| - 1]
  {
    var recent := Tail(history, MaxHistory);
    assert (recent + [Message("user", prompt)])[..|recent|] == recent;
    recent + [Message("user", prompt)]
  }
}
