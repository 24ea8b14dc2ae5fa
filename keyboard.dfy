/** The keys the page's `keydown` handlers tell apart (`e.key`). */
module Keyboard {
  datatype Key = ArrowLeft | ArrowRight | Escape | OtherKey
}
