/** The part of markdown-it's token stream the tools read. The tokenizer itself
    is an input: each tool holds a function from file text to tokens. */
module Tokens {
  import opened Wrappers

  /** Children of an `inline` token. An absent `href` or `src` attribute is the
      empty string, which the tools treat the same way (both are falsy). */
  datatype InlineToken =
    | LinkOpen(href: string)
    | LinkClose
    | TextToken(content: string)
    | CodeInline(content: string)
    | ImageToken(src: string, content: string)
    | HtmlInline(content: string)
    | OtherInline

  /** Block-level tokens. `mapLine` is `token.map[0]` (0-based) when the token has
      a source map; `children` is `None` when it is not an array. */
  datatype BlockToken =
    | HeadingOpen
    | Inline(mapLine: Option<nat>, content: string, children: Option<seq<InlineToken>>)
    | HtmlBlock(content: string)
    | OtherBlock

  /** A markdown-it instance: text in, tokens out. */
  type Tokenizer = string -> seq<BlockToken>
}
