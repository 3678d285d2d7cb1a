/** What the Telegram Bot API sees of the scraper: the Markdown escaping
    both notifiers apply to field values, and the `sendMessage` request they
    post. */
module Telegram {
  import opened Strings

  /** The characters both `escape_markdown` variants escape, in the order
      they are replaced. */
  const Special: seq<char> := ['_', '*', '[', ']', '(', ')']

  /** `text.replace(c, "\\" + c)`: every `c` gets a backslash in front. */
  function ReplaceEscape(text: string, c: char): (r: string)
    decreases |text|
  {
    if text == [] then []
    else (if text[0] == c then ['\\', c] else [text[0]]) + ReplaceEscape(text[1..], c)
  }

  /** The per-character escape of the characters in `cs`. */
  function EscapeCharIn(c: char, cs: seq<char>): string {
    if c in cs then ['\\', c] else [c]
  }

  /** `text` with a backslash in front of every character of `cs`, and every
      other character kept. */
  function EscapedIn(text: string, cs: seq<char>): string
    decreases |text|
  {
    if text == [] then [] else EscapeCharIn(text[0], cs) + EscapedIn(text[1..], cs)
  }

  /** The escaping both `escape_markdown` functions aim at: a backslash before
      each of `_ * [ ] ( )`, all other characters unchanged. */
  function Escaped(text: string): string {
    EscapedIn(text, Special)
  }

  /** Number of markdown-significant characters in `text`. */
  function SpecialCount(text: string): nat
    decreases |text|
  {
    if text == [] then 0 else (if text[0] in Special then 1 else 0) + SpecialCount(text[1..])
  }

  /** An idealised reader of an escaped text: a backslash followed by any
      of the six special characters stands for that character. Telegram's
      legacy Markdown mode treats only `_`, `*`, backquote and `[` this way,
      and shows a backslash before `]`, `(` or `)` as it is. */
  function Unescape(shown: string): string
    decreases |shown|
  {
    if shown == [] then []
    else if |shown| >= 2 && shown[0] == '\\' && shown[1] in Special then [shown[1]] + Unescape(shown[2..])
    else [shown[0]] + Unescape(shown[1..])
  }

  lemma {:induction false} ReplaceEscapeAppend(a: string, b: string, c: char)
    ensures ReplaceEscape(a + b, c) == ReplaceEscape(a, c) + ReplaceEscape(b, c)
    decreases |a|
  {
    if a != [] {
      assert (a + b)[1..] == a[1..] + b;
      ReplaceEscapeAppend(a[1..], b, c);
    } else {
      assert a + b == b;
    }
  }

  /** Replacing one more character `c` on a text already escaped for `cs`
      escapes it for `cs + [c]`, as long as `c` is neither a backslash nor
      already in `cs`: the backslashes inserted earlier are never touched. */
  lemma {:induction false} ReplaceExtendsEscape(text: string, cs: seq<char>, c: char)
    requires c != '\\' && c !in cs
    ensures ReplaceEscape(EscapedIn(text, cs), c) == EscapedIn(text, cs + [c])
    decreases |text|
  {
    if text != [] {
      var head := EscapeCharIn(text[0], cs);
      ReplaceEscapeAppend(head, EscapedIn(text[1..], cs), c);
      ReplaceExtendsEscape(text[1..], cs, c);
      if text[0] in cs {
        assert ReplaceEscape(head, c) == ['\\', text[0]] by {
          assert head == ['\\', text[0]];
          assert head[1..] == [text[0]];
        }
      } else {
        assert ReplaceEscape(head, c) == EscapeCharIn(text[0], cs + [c]) by {
          assert head == [text[0]];
          assert head[1..] == [];
        }
      }
    }
  }

  lemma {:induction false} EscapedInNone(text: string)
    ensures EscapedIn(text, []) == text
    decreases |text|
  {
    if text != [] {
      EscapedInNone(text[1..]);
    }
  }

  /** Escaping the first `i` special characters one `replace` at a time, in
      the order of `Special`, equals the per-character escape for them. */
  lemma ReplaceLoopStep(text: string, i: nat)
    requires i < |Special|
    ensures ReplaceEscape(EscapedIn(text, Special[..i]), Special[i]) == EscapedIn(text, Special[..i + 1])
  {
    assert Special[..i + 1] == Special[..i] + [Special[i]];
    ReplaceExtendsEscape(text, Special[..i], Special[i]);
  }

  lemma EscapedInAll(text: string)
    ensures EscapedIn(text, Special[..|Special|]) == Escaped(text)
  {
    assert Special[..|Special|] == Special;
  }

  lemma EscapedInEmpty(text: string)
    ensures EscapedIn(text, Special[..0]) == text
  {
    assert Special[..0] == [];
    EscapedInNone(text);
  }

  /** The escaped text is longer than the input by exactly the number of
      markdown-significant characters in it. */
  lemma {:induction false} EscapedLength(text: string)
    ensures |Escaped(text)| == |text| + SpecialCount(text)
    decreases |text|
  {
    if text != [] {
      EscapedLength(text[1..]);
    }
  }

  /** A text is left unchanged by the escape exactly when it holds none of
      the six special characters. */
  lemma {:induction false} EscapedUnchangedIff(text: string)
    ensures Escaped(text) == text <==> forall k :: 0 <= k < |text| ==> text[k] !in Special
  {
    EscapedLength(text);
    if forall k :: 0 <= k < |text| ==> text[k] !in Special {
      NoSpecialUnchanged(text);
    } else {
      var k :| 0 <= k < |text| && text[k] in Special;
      SpecialCountPositive(text, k);
    }
  }

  lemma {:induction false} NoSpecialUnchanged(text: string)
    requires forall k :: 0 <= k < |text| ==> text[k] !in Special
    ensures Escaped(text) == text
    decreases |text|
  {
    if text != [] {
      NoSpecialUnchanged(text[1..]);
    }
  }

  lemma {:induction false} SpecialCountPositive(text: string, k: nat)
    requires k < |text| && text[k] in Special
    ensures SpecialCount(text) > 0
    decreases k
  {
    if k > 0 {
      SpecialCountPositive(text[1..], k - 1);
    }
  }

  /** An escaped text never starts with a special character: each one is
      preceded by its own backslash. */
  lemma EscapedHead(text: string)
    requires text != []
    ensures Escaped(text) != [] && Escaped(text)[0] !in Special
  {
  }

  /** The escape is lossless: the idealised reader recovers the original
      text from the escaped one, whatever backslashes the text held. */
  lemma {:induction false} UnescapeEscaped(text: string)
    ensures Unescape(Escaped(text)) == text
    decreases |text|
  {
    if text != [] {
      var rest := Escaped(text[1..]);
      UnescapeEscaped(text[1..]);
      assert Escaped(text) == EscapeCharIn(text[0], Special) + rest;
      if text[0] in Special {
        assert Escaped(text)[2..] == rest;
      } else {
        if text[1..] != [] {
          EscapedHead(text[1..]);
        }
        assert Escaped(text)[1..] == rest;
      }
    }
  }

  /** The body of a Bot API `sendMessage` call, with the method URL. */
  datatype Request = SendMessage(
    url: string,
    chatId: string,
    text: string,
    parseMode: string,
    disableWebPagePreview: bool)

  /** `https://api.telegram.org/bot{token}/sendMessage` */
  function SendMessageUrl(token: string): string {
    "https://api.telegram.org/bot" + token + "/sendMessage"
  }

  /** The payload both notifiers post: markdown parse mode, no link preview. */
  function MarkdownMessage(token: string, chatId: string, text: string): (r: Request)
    ensures r.text == text && r.chatId == chatId && r.parseMode == "Markdown" && r.disableWebPagePreview
    ensures r.url == "https://api.telegram.org/bot" + token + "/sendMessage"
  {
    SendMessage(SendMessageUrl(token), chatId, text, "Markdown", true)
  }
}
