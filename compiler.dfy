/**
  Compiling one page: read its config and content, decode the config and
  render the content. Everything the build asks of the outside world is a
  field of `Env`.
 */
module Compiler {

  import opened Paths
  import opened Pages

  datatype Option<T> = None | Some(value: T)

  datatype Result<T, E> = Ok(value: T) | Err(error: E)

  /**
    The outside world as the build sees it: the readable files and their text
    (a path that is absent cannot be read), the YAML decoder, the Markdown
    renderer, whether an output file can be created, and whether the page
    template executes on a given input.
   */
  datatype Env = Env(
    files: map<Path, string>,
    decodeConfig: string -> Option<PageConfig>,
    markdownToHtml: string -> string,
    canCreate: Path -> bool,
    templateAccepts: RenderInput -> bool)

  datatype CompileError =
    | ConfigUnreadable(path: Path)
    | ContentUnreadable(path: Path)
    | ConfigMalformed(path: Path)

  /**
    `Page.Compile`: fails at the first step that fails, in the order config
    read, content read, config decoding; otherwise carries the decoded title.
   */
  function Compile(env: Env, p: Page): (r: Result<CompiledPage, CompileError>)
    ensures r == Err(ConfigUnreadable(p.configPath)) <==> p.configPath !in env.files
    ensures r == Err(ContentUnreadable(p.contentPath)) <==>
              p.configPath in env.files && p.contentPath !in env.files
    ensures r == Err(ConfigMalformed(p.configPath)) <==>
              p.configPath in env.files && p.contentPath in env.files &&
              env.decodeConfig(env.files[p.configPath]).None?
    ensures r.Ok? <==>
              p.configPath in env.files && p.contentPath in env.files &&
              env.decodeConfig(env.files[p.configPath]).Some?
    ensures r.Ok? ==>
              && p.configPath in env.files && p.contentPath in env.files
              && r.value.original == p
              && env.decodeConfig(env.files[p.configPath]) == Some(PageConfig(r.value.title))
              && r.value.content == env.markdownToHtml(env.files[p.contentPath])
  {
    if p.configPath !in env.files then Err(ConfigUnreadable(p.configPath))
    else
      var config := env.files[p.configPath];
      if p.contentPath !in env.files then Err(ContentUnreadable(p.contentPath))
      else
        var content := env.files[p.contentPath];
        match env.decodeConfig(config)
        case None => Err(ConfigMalformed(p.configPath))
        case Some(pageConfig) =>
          Ok(CompiledPage(p, pageConfig.title, env.markdownToHtml(content)))
  }
}
