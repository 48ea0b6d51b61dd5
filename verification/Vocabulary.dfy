// The closed vocabularies of the tools' results (internal/api/codes.go).
module Vocabulary {
  import opened PageFields
  import opened TextOrder

  // Languages that can be parsed.
  const LANGUAGES: seq<Text> := [
    Word("markdown"), Word("go"), Word("javascript"), Word("jsx"), Word("typescript"), Word("tsx"),
    Word("python"), Word("java"), Word("rust"), Word("c"), Word("cpp"), Word("csharp"), Word("ruby"),
    Word("kotlin"), Word("swift"), Word("bash"), Word("json"), Word("yaml"), Word("svelte")]

  const SYMBOL_KINDS: seq<Text> := [
    Word("package"), Word("module"), Word("namespace"), Word("class"), Word("interface"), Word("struct"),
    Word("enum"), Word("trait"), Word("type"), Word("constant"), Word("variable"), Word("field"),
    Word("property"), Word("function"), Word("method"), Word("constructor"), Word("object"),
    Word("component"), Word("section"), Word("other")]

  const WARNING_CODES: seq<Text> := [
    Word("binary_skipped"), Word("parser_partial"), Word("parser_skipped"),
    Word("path_encoding_unsupported"), Word("special_file_skipped"), Word("unreadable_skipped"),
    Word("unsupported_encoding_skipped"), Word("source_changed_skipped"), Word("symlink_skipped"),
    Word("mount_skipped"), Word("unaddressable_path_skipped")]

  // What can go wrong with one file of a read.
  const READ_ERROR_CODES: seq<Text> := [
    Word("invalid_input"), Word("not_found"), Word("binary"), Word("unsupported_encoding"),
    Word("unsupported_language"), Word("budget_exceeded"), Word("permission_denied"), Word("io_error"),
    Word("parser_failed")]

  // What is said about an error of one file, and the advice that goes with it.
  function ErrorMessage(code: Text): (message: Text)
    ensures forall k :: 0 <= k < |message| ==> 0x20 <= message[k] < 0x80
  {
    if code == Word("not_found") then Word("path_was_not_found")
    else if code == Word("binary") then Word("file_is_binary")
    else if code == Word("unsupported_encoding") then Word("file_encoding_is_not_supported")
    else if code == Word("unsupported_language") then Word("outline_language_is_not_supported")
    else if code == Word("budget_exceeded") then Word("operation_exceeded_server_budget")
    else if code == Word("permission_denied") then Word("filesystem_permission_denied")
    else if code == Word("io_error") then Word("filesystem_operation_failed")
    else if code == Word("parser_failed") then Word("source_parser_failed")
    else Word("tool_arguments_are_invalid")
  }

  function ErrorHint(code: Text): (hint: Text)
    ensures |hint| > 0 && forall k :: 0 <= k < |hint| ==> 0x20 <= hint[k] < 0x80
  {
    if code == Word("not_found") then Word("check_the_relative_path_and_registered_cwd")
    else if code == Word("binary") then Word("choose_a_text_file_or_use_another_tool")
    else if code == Word("unsupported_encoding") then Word("convert_file_to_utf_8")
    else if code == Word("unsupported_language") then Word("use_source_view_instead")
    else if code == Word("budget_exceeded") then Word("narrow_request_or_reduce_limit")
    else if code == Word("permission_denied") then Word("choose_a_readable_path_or_adjust_permissions")
    else if code == Word("io_error") then Word("retry_once_then_check_file_state")
    else if code == Word("parser_failed") then Word("use_source_view_or_narrow_file")
    else Word("fix_the_named_field_and_retry")
  }
}
