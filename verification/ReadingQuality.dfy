/** How good a stored reading is: the backend's three grades. */
module ReadingQuality {
  datatype Quality = Good | Uncertain | Bad
}
